/** The residency manager: the object whose fields the runtime updates in place.  Every method is
    proved against the step on `Tiers` that it implements. */
module Residency {
  import L = Listing
  import C = ClockRing
  import opened Pages
  import opened Residents
  import opened Estimators
  import opened Admission
  import opened Tiers

  datatype UseResult = UseResult(tuple: PageTuple, state: C.ResidentState, promoted: bool)

  class Hierarchy {
    const policy: Policy

    var resident: map<string, Entry>
    var residentOrder: seq<string>
    var clock: nat
    var residentBytes: int
    var pinnedBytes: int
    var pinnedPages: int

    // The tier maps hold the residents' own pages, so only their keys are kept here.
    var l2: set<string>
    var l3: set<string>

    var ghosts: map<string, Ghost>
    var ghostOrder: seq<string>
    var ghostBytes: int

    var shadows: map<ShadowKey, Shadow>
    var shadowOrder: seq<ShadowKey>
    var shadowBytes: int
    var shadowObservations: nat
    var shadowUseful: nat
    var shadowUnused: nat
    var shadowCensored: nat

    var tick: nat
    var useTick: nat
    var nonresidentAge: nat
    var refaultDistance: nat

    // History: the page each id was last admitted with, and the ids marked stale since.
    ghost var installed: map<string, Page>
    ghost var tainted: set<string>

    ghost function R(): Residents
      reads `resident, `residentOrder, `clock
    {
      Residents(resident, residentOrder, clock)
    }

    ghost function G(): Ghosts
      reads `ghosts, `ghostOrder
    {
      Ghosts(ghosts, ghostOrder)
    }

    ghost function S(): Shadows
      reads `shadows, `shadowOrder, `shadowObservations, `shadowUseful, `shadowUnused, `shadowCensored
    {
      Shadows(shadows, shadowOrder, shadowObservations, shadowUseful, shadowUnused, shadowCensored)
    }

    ghost function T(): Tiers
      reads this
    {
      Tiers(R(), G(), S(), tick, useTick, nonresidentAge, refaultDistance)
    }

    /** The resident counters and the two tier maps say what the entries say. */
    ghost predicate Counted()
      reads `resident, `residentOrder, `clock, `residentBytes, `pinnedBytes, `pinnedPages, `l2, `l3
    {
      && WellFormed(R())
      && residentBytes == Total(R(), AllBytes)
      && pinnedBytes == Total(R(), PinBytes)
      && pinnedPages == Total(R(), PinCount)
      && l2 == WarmOrHot(resident, false) && l3 == WarmOrHot(resident, true)
    }

    ghost predicate GhostsCounted()
      reads `ghosts, `ghostOrder, `ghostBytes
    {
      GhostsWellFormed(G()) && ghostBytes == GhostBytes(G())
    }

    ghost predicate ShadowsCounted()
      reads `shadows, `shadowOrder, `shadowBytes, `shadowObservations, `shadowUseful, `shadowUnused, `shadowCensored
    {
      ShadowsWellFormed(S()) && shadowBytes == ShadowBytes(S())
    }

    /** The counters agree with the tiers. */
    ghost predicate Ok()
      reads `resident, `residentOrder, `clock, `residentBytes, `pinnedBytes, `pinnedPages, `l2, `l3
      reads `ghosts, `ghostOrder, `ghostBytes
      reads `shadows, `shadowOrder, `shadowBytes, `shadowObservations, `shadowUseful, `shadowUnused, `shadowCensored
    {
      Counted() && GhostsCounted() && ShadowsCounted()
    }

    /** Which page each id was last admitted with, and which ids were marked stale since. */
    ghost function H(): (map<string, Page>, set<string>)
      reads `installed, `tainted
    {
      (installed, tainted)
    }

    ghost predicate Valid()
      reads this
    {
      Ok() && TiersValid(T(), policy) && BodiesCurrent(R(), installed, tainted)
    }

    constructor (policy: Policy)
      requires policy.Valid()
      ensures Valid() && this.policy == policy
      ensures T() == Tiers(Residents(map[], [], 0), Ghosts(map[], []), Shadows(map[], [], 0, 0, 0, 0), 0, 0, 0, 0)
    {
      this.policy := policy;
      resident, residentOrder, clock := map[], [], 0;
      residentBytes, pinnedBytes, pinnedPages := 0, 0, 0;
      l2, l3 := {}, {};
      ghosts, ghostOrder, ghostBytes := map[], [], 0;
      shadows, shadowOrder, shadowBytes := map[], [], 0;
      shadowObservations, shadowUseful, shadowUnused, shadowCensored := 0, 0, 0, 0;
      tick, useTick, nonresidentAge, refaultDistance := 0, 0, 0, 0;
      installed, tainted := map[], {};
    }

    // ---- the resident tier ----

    method SyncResidentTier(id: string)
      requires id in resident
      modifies `l2, `l3
      ensures resident[id].state == C.Cold ==> l2 == old(l2) - {id} && l3 == old(l3) + {id}
      ensures resident[id].state != C.Cold ==> l2 == old(l2) + {id} && l3 == old(l3) - {id}
    {
      match resident[id].state
      case Cold =>
        l2, l3 := l2 - {id}, l3 + {id};
      case _ =>
        l3, l2 := l3 - {id}, l2 + {id};
    }

    method RemoveOrderAt(i: nat)
      requires i < |residentOrder| && clock < |residentOrder|
      modifies `residentOrder, `clock
      ensures residentOrder == L.RemoveIndex(old(residentOrder), i)
      ensures clock == if old(clock) >= |residentOrder| && |residentOrder| > 0 then 0 else old(clock)
    {
      residentOrder := residentOrder[..i] + residentOrder[i + 1..];
      if clock >= |residentOrder| && |residentOrder| > 0 {
        clock := 0;
      }
    }

    /** Take an id out of the clock order; the hand follows the pages behind the gap. */
    method Unlist(id: string)
      requires id in residentOrder && clock < |residentOrder|
      modifies `residentOrder, `clock
      ensures residentOrder == L.RemoveIndex(old(residentOrder), L.IndexOf(old(residentOrder), id))
      ensures clock == L.HandAfterRemoval(|old(residentOrder)|, old(clock), L.IndexOf(old(residentOrder), id))
    {
      var i := 0;
      while residentOrder[i] != id
        invariant 0 <= i < |residentOrder| && id !in residentOrder[..i]
        invariant residentOrder == old(residentOrder) && clock == old(clock)
        decreases |residentOrder| - i
      {
        i := i + 1;
      }
      assert i == L.IndexOf(old(residentOrder), id);
      RemoveOrderAt(i);
      if i < clock && clock > 0 {
        clock := clock - 1;
      }
    }

    method RemoveResident(id: string)
      requires Counted()
      modifies `resident, `residentOrder, `clock, `residentBytes, `pinnedBytes, `pinnedPages, `l2, `l3
      ensures Counted() && R() == Removed(old(R()), id)
    {
      hide L.Lists, L.IndexOf, WarmOrHot, WellFormed, Total, Removed, L.RemoveIndex, L.HandAfterRemoval;
      if id !in resident {
        RemovedAbsent(R(), id);
        return;
      }
      ghost var before := R();
      RemovalFacts(before, id);
      WarmOrHotRemoved(resident, id, false);
      WarmOrHotRemoved(resident, id, true);
      var size := resident[id].page.Size();
      residentBytes := residentBytes - size;
      if resident[id].state == C.Pinned {
        pinnedPages := pinnedPages - 1;
        pinnedBytes := pinnedBytes - size;
      }
      resident := resident - {id};
      l2 := l2 - {id};
      l3 := l3 - {id};
      Unlist(id);
      assert R() == Removed(before, id);
    }

    // ---- ghosts ----

    method DeleteGhost(id: string)
      requires GhostsCounted()
      modifies `ghosts, `ghostOrder, `ghostBytes
      ensures GhostsCounted() && G() == GhostDropped(old(G()), id)
    {
      hide L.Lists, GhostsKept, GhostSizes, GhostsWellFormed;
      ghost var before := G();
      if id in ghosts {
        GhostDroppedBytes(before, id);
        GhostListed(before, id);
        ghostBytes := ghostBytes - ghosts[id].page.Size();
        ghosts := ghosts - {id};
        RemoveFromGhostOrder(id);
      } else {
        GhostDroppedAbsent(before, id);
      }
    }

    method RemoveFromGhostOrder(id: string)
      requires id in ghostOrder
      modifies `ghostOrder
      ensures ghostOrder == L.Without(old(ghostOrder), id)
    {
      var i := 0;
      while ghostOrder[i] != id
        invariant 0 <= i < |ghostOrder| && id !in ghostOrder[..i] && ghostOrder == old(ghostOrder)
        decreases |ghostOrder| - i
      {
        i := i + 1;
      }
      assert i == L.IndexOf(ghostOrder, id);
      ghostOrder := ghostOrder[..i] + ghostOrder[i + 1..];
    }

    method EnforceGhostCap()
      requires GhostsCounted() && policy.Valid()
      modifies `ghosts, `ghostOrder, `ghostBytes
      ensures GhostsCounted() && G() == GhostsTrimmed(old(G()), policy)
    {
      hide L.Lists, GhostsKept, GhostDropped;
      ghost var before := G();
      ghost var n := 0;
      ghost var w := GhostSizes(before.entries);
      GhostsKeptAll(before);
      GhostSuffix(before, 0);
      while |ghostOrder| > policy.maxGhostEntries || ghostBytes > policy.maxGhostBytes
        invariant GhostsCounted()
        invariant n <= L.Overflow(before.order, w, policy.maxGhostEntries, policy.maxGhostBytes)
        invariant G() == GhostsKept(before, L.Members(before.order[n..]))
        decreases |before.order| - n
      {
        GhostSuffix(before, n);
        L.OverflowStep(before.order, w, policy.maxGhostEntries, policy.maxGhostBytes, n);
        GhostsKeptThenDropped(before, L.Members(before.order[n..]), before.order[n]);
        DeleteGhost(ghostOrder[0]);
        n := n + 1;
      }
      GhostSuffix(before, n);
      L.OverflowDone(before.order, w, policy.maxGhostEntries, policy.maxGhostBytes, n);
    }

    method AddGhost(p: Page)
      requires GhostsCounted() && policy.Valid()
      modifies `ghosts, `ghostOrder, `ghostBytes
      ensures GhostsCounted()
      ensures G() == GhostAdded(old(G()), p, tick, useTick, nonresidentAge, policy)
    {
      hide GhostsTrimmed, GhostsCounted, GhostAdded, GhostPut, GhostsWellFormed, Page.Size, Page.Metadata;
      GhostsAreWellFormed();
      GhostAddedShape(G(), p, tick, useTick, nonresidentAge, policy);
      if policy.maxGhostEntries == 0 || policy.maxGhostBytes == 0 || p.id == "" {
        return;
      }
      var cp := p.Metadata();
      if cp.Size() > policy.maxGhostBytes {
        return;
      }
      PutGhost(Ghost(cp, tick, useTick, nonresidentAge));
      EnforceGhostCap();
    }

    lemma GhostsAreWellFormed()
      requires GhostsCounted()
      ensures GhostsWellFormed(G())
    {
    }

    method PutGhost(entry: Ghost)
      requires GhostsCounted() && entry.page.Bodyless()
      modifies `ghosts, `ghostOrder, `ghostBytes
      ensures GhostsCounted() && GhostsWellFormed(old(G())) && G() == GhostPut(old(G()), entry)
    {
      hide GhostsWellFormed, GhostBytes, Page.Size, Page.Metadata, Page.Bodyless, Page.Tuple;
      var id := entry.page.id;
      GhostPutWellFormed(G(), entry);
      GhostPutBytes(G(), entry);
      if id in ghosts {
        ghostBytes := ghostBytes - ghosts[id].page.Size();
      } else {
        ghostOrder := ghostOrder + [id];
      }
      ghosts := ghosts[id := entry];
      ghostBytes := ghostBytes + entry.page.Size();
    }

    // ---- shadows ----

    /** Count a shadow's outcome, unless it was useful, and forget it. */
    method CloseShadow(k: ShadowKey, outcome: Outcome)
      requires ShadowsCounted() && k in shadows
      modifies `shadows, `shadowOrder, `shadowBytes, `shadowUnused, `shadowCensored
      ensures ShadowsCounted() && S() == Retired(old(S()), old(shadows).Keys - {k}, outcome)
    {
      hide L.Lists, ShadowsWellFormed, L.Sum, Retired, Page.Size, Page.Tuple, Page.Bodyless;
      ghost var before := S();
      RetireOneShape(before, k, outcome);
      RetireOneBytes(before, k, outcome);
      ShadowListed(before, k);
      if !shadows[k].useful {
        match outcome
        case AsUnused => shadowUnused := shadowUnused + 1;
        case AsCensored => shadowCensored := shadowCensored + 1;
      }
      shadowBytes := shadowBytes - shadows[k].page.Size();
      shadows := shadows - {k};
      RemoveFromShadowOrder(k);
    }

    method RemoveFromShadowOrder(k: ShadowKey)
      requires k in shadowOrder
      modifies `shadowOrder
      ensures shadowOrder == L.Without(old(shadowOrder), k)
    {
      var i := 0;
      while shadowOrder[i] != k
        invariant 0 <= i < |shadowOrder| && k !in shadowOrder[..i] && shadowOrder == old(shadowOrder)
        decreases |shadowOrder| - i
      {
        i := i + 1;
      }
      assert i == L.IndexOf(shadowOrder, k);
      shadowOrder := shadowOrder[..i] + shadowOrder[i + 1..];
    }

    /** Close every doomed shadow, oldest first. */
    method CloseShadows(doomed: set<ShadowKey>, outcome: Outcome)
      requires ShadowsCounted()
      modifies `shadows, `shadowOrder, `shadowBytes, `shadowUnused, `shadowCensored
      ensures ShadowsCounted() && S() == Retired(old(S()), old(shadows).Keys - doomed, outcome)
    {
      hide Retired, ShadowBytes, ShadowsWellFormed, L.Members;
      ghost var before := S();
      ghost var keep := shadows.Keys;
      AllListed(before);
      RetireNone(before, outcome);
      var keys := shadowOrder;
      var i := 0;
      while i < |keys|
        invariant 0 <= i <= |keys| && keys == before.order && ShadowsCounted()
        invariant keep == before.entries.Keys - (doomed * L.Members(keys[..i]))
        invariant shadows.Keys == keep && S() == Retired(before, keep, outcome)
      {
        var k := keys[i];
        NextListed(before, i);
        if k in shadows && k in doomed {
          RetireOneMore(before, keep, k, outcome);
          CloseShadow(k, outcome);
          keep := keep - {k};
          RetiredKeys(before, keep, outcome);
        }
        i := i + 1;
      }
      assert keep == before.entries.Keys - doomed;
    }

    method ExpireShadows()
      requires ShadowsCounted() && (policy.shadowUseHorizon == 0 ==> shadows == map[])
      requires forall k :: k in shadows ==> shadows[k].observedAt <= useTick
      modifies `shadows, `shadowOrder, `shadowBytes, `shadowUnused, `shadowCensored
      ensures ShadowsCounted() && S() == Expired(old(S()), useTick, policy)
    {
      var outlived := set k | k in shadows && useTick - shadows[k].observedAt > policy.shadowUseHorizon;
      assert shadows.Keys - outlived == YoungKeys(S(), useTick, policy);
      CloseShadows(outlived, AsUnused);
    }

    method MarkShadowUseful(p: Page)
      requires ShadowsCounted() && (policy.shadowUseHorizon == 0 ==> shadows == map[])
      requires forall k :: k in shadows ==> shadows[k].observedAt <= useTick
      modifies `shadows, `shadowOrder, `shadowBytes, `shadowUseful, `shadowUnused, `shadowCensored
      ensures ShadowsCounted() && S() == MarkedUseful(Expired(old(S()), useTick, policy), p)
    {
      ExpireShadows();
      MarkListed(p);
    }

    method MarkListed(p: Page)
      requires ShadowsCounted()
      modifies `shadows, `shadowUseful
      ensures ShadowsCounted() && S() == MarkedUseful(old(S()), p)
    {
      hide MarkedAmong, L.Sum, L.Lists;
      ghost var before := S();
      MarkedAmongNone(before, p);
      var i := 0;
      while i < |shadowOrder|
        invariant 0 <= i <= |shadowOrder|
        invariant S() == MarkedAmong(before, p, L.Members(shadowOrder[..i])) && shadowOrder == before.order
      {
        var k := shadowOrder[i];
        ghost var seen := L.Members(shadowOrder[..i]);
        NextListed(before, i);
        MarkOneMore(before, p, seen, k);
        MarkedUsefulWellFormed(before, p, seen);
        if k.tuple == p.Tuple() && !shadows[k].useful {
          shadowUseful := shadowUseful + 1;
          shadows := shadows[k := shadows[k].(useful := true)];
        }
        i := i + 1;
      }
      AllListed(before);
      MarkedUsefulWellFormed(before, p, before.entries.Keys);
    }

    method EnforceShadowCap()
      requires ShadowsCounted() && policy.Valid()
      modifies `shadows, `shadowOrder, `shadowBytes, `shadowUnused, `shadowCensored
      ensures ShadowsCounted() && S() == ShadowsTrimmed(old(S()), policy)
    {
      hide Retired, L.Lists, ShadowsWellFormed, Page.Size, Page.Tuple, Page.Bodyless, L.Overflow, ShadowBytes;
      ghost var before := S();
      ghost var w := ShadowSizes(before.entries);
      ghost var n := 0;
      AllListed(before);
      RetireNone(before, AsUnused);
      ShadowSuffix(before, 0, AsUnused);
      while |shadowOrder| > policy.maxShadowEntries || shadowBytes > policy.maxShadowBytes
        invariant ShadowsCounted()
        invariant n <= L.Overflow(before.order, w, policy.maxShadowEntries, policy.maxShadowBytes)
        invariant S() == Retired(before, L.Members(before.order[n..]), AsUnused)
        decreases |before.order| - n
      {
        ShadowSuffix(before, n, AsUnused);
        L.OverflowStep(before.order, w, policy.maxShadowEntries, policy.maxShadowBytes, n);
        RetireOneMore(before, L.Members(before.order[n..]), before.order[n], AsUnused);
        CloseShadow(shadowOrder[0], AsUnused);
        n := n + 1;
      }
      ShadowSuffix(before, n, AsUnused);
      L.OverflowDone(before.order, w, policy.maxShadowEntries, policy.maxShadowBytes, n);
    }

    method PutShadow(p: Page, ordinal: int) returns (ok: bool)
      requires ShadowsCounted() && policy.Valid() && p.Bodyless()
      modifies `shadows, `shadowOrder, `shadowBytes, `shadowObservations, `shadowUnused, `shadowCensored
      ensures ShadowsCounted() && (S(), ok) == Observed(old(S()), p, ordinal, useTick, policy)
    {
      hide Retired, ShadowsCounted, ShadowBytes, ShadowsTrimmed, Page.Size, L.Lists;
      if policy.maxShadowEntries == 0 || policy.maxShadowBytes == 0 || policy.shadowUseHorizon == 0 {
        return true;
      }
      var size := p.Size();
      if size > policy.maxShadowBytes {
        return false;
      }
      ShadowsAreWellFormed();
      var doomed := set k | k in shadows && k.tuple.id == p.id && k.tuple != p.Tuple();
      assert shadows.Keys - doomed == KeysNotMismatching(S(), p);
      CloseShadows(doomed, AsCensored);
      ShadowsAreWellFormed();
      var key := ShadowKey(p.Tuple(), p.embeddingSpace);
      if key in shadows {
        ok := RefreshShadow(key, p);
        return;
      }
      AppendShadow(key, Shadow(p, ordinal, useTick, false));
      EnforceShadowCap();
      ok := true;
    }

    lemma ShadowsAreWellFormed()
      requires ShadowsCounted()
      ensures ShadowsWellFormed(S())
    {
    }

    /** The page of a live shadow is replaced, if the bytes allow. */
    method RefreshShadow(key: ShadowKey, p: Page) returns (ok: bool)
      requires ShadowsCounted() && key in shadows && p.Tuple() == key.tuple && p.Bodyless()
      modifies `shadows, `shadowBytes
      ensures ShadowsWellFormed(old(S())) && ShadowsCounted()
      ensures ok <==> ShadowBytes(old(S())) - old(shadows)[key].page.Size() + p.Size() <= policy.maxShadowBytes
      ensures S() == if ok then ShadowRefreshed(old(S()), key, p) else old(S())
    {
      hide ShadowsWellFormed, ShadowBytes, Page.Size, Page.Tuple, Page.Bodyless;
      ShadowRefreshedWellFormed(S(), key, p);
      var next := shadowBytes - shadows[key].page.Size() + p.Size();
      if next > policy.maxShadowBytes {
        return false;
      }
      shadowBytes := next;
      shadows := shadows[key := shadows[key].(page := p)];
      ok := true;
    }

    method AppendShadow(key: ShadowKey, shadow: Shadow)
      requires ShadowsCounted() && key !in shadows && shadow.page.Tuple() == key.tuple && shadow.page.Bodyless()
      modifies `shadows, `shadowOrder, `shadowBytes, `shadowObservations
      ensures ShadowsCounted() && S() == ShadowAppended(old(S()), key, shadow)
    {
      hide ShadowsWellFormed, ShadowBytes, Page.Size, Page.Tuple, Page.Bodyless;
      ShadowAppendedWellFormed(S(), key, shadow);
      shadowOrder := shadowOrder + [key];
      shadows := shadows[key := shadow];
      shadowBytes := shadowBytes + shadow.page.Size();
      shadowObservations := shadowObservations + 1;
    }

    // ---- the clock ----

    function OverCapacity(): bool
      reads this
    {
      |resident| > policy.maxResidentPages || residentBytes > policy.maxResidentBytes
    }

    method EvictAtClock()
      requires Counted() && GhostsCounted() && policy.Valid() && |residentOrder| > 0 && DueNow(R())
      modifies `resident, `residentOrder, `clock, `residentBytes, `pinnedBytes, `pinnedPages, `l2, `l3
      modifies `ghosts, `ghostOrder, `ghostBytes, `nonresidentAge
      ensures Counted() && R() == Removed(old(R()), UnderHand(old(R())))
      ensures GhostsCounted() && nonresidentAge == old(nonresidentAge) + 1
      ensures G() == GhostAdded(old(G()), old(R()).entries[UnderHand(old(R()))].page, tick, useTick, old(nonresidentAge), policy)
    {
      hide L.Lists, Total, Removed, GhostsWellFormed, GhostAdded;
      var id := residentOrder[clock];
      assert id == UnderHand(R());
      AddGhost(resident[id].page);
      nonresidentAge := nonresidentAge + 1;
      RemoveResident(id);
    }

    /** The hand passes a page that is not due: it loses its bit, or its heat. */
    method PassAtClock()
      requires Counted() && |residentOrder| > 0 && !DueNow(R())
      modifies `resident, `clock, `l2, `l3
      ensures Counted() && R() == ScannedOver(old(R()))
    {
      hide L.Lists, Total, WarmOrHot;
      ghost var before := R();
      var id := residentOrder[clock];
      assert id == UnderHand(before);
      var entry := resident[id];
      PassingKeepsCounts(before);
      AgingKeepsTierMaps(resident, id);
      L.SteppedIsModular(|residentOrder|, clock);
      if entry.state == C.Pinned {
        assert resident[id := entry] == resident;
      } else if entry.ref {
        resident := resident[id := entry.(ref := false)];
      } else {
        resident := resident[id := entry.(state := C.Cold)];
        SyncResidentTier(id);
      }
      clock := (clock + 1) % |residentOrder|;
      assert R() == ScannedOver(before);
    }

    /** What the sweep does at one position of the hand. */
    method ScanAtClock() returns (evicted: bool)
      requires Counted() && GhostsCounted() && policy.Valid() && |residentOrder| > 0
      modifies `resident, `residentOrder, `clock, `residentBytes, `pinnedBytes, `pinnedPages, `l2, `l3
      modifies `ghosts, `ghostOrder, `ghostBytes, `nonresidentAge
      ensures Counted() && R() == Scanned(old(R())) && evicted == DueNow(old(R()))
      ensures GhostsCounted() && nonresidentAge == old(nonresidentAge) + (if evicted then 1 else 0)
      ensures G() == if evicted then GhostAdded(old(G()), old(R()).entries[UnderHand(old(R()))].page, tick, useTick, old(nonresidentAge), policy)
                     else old(G())
    {
      hide L.Lists, Total, Removed, ScannedOver, GhostsWellFormed, GhostAdded;
      var id := residentOrder[clock];
      assert id == UnderHand(R());
      var entry := resident[id];
      evicted := entry.state == C.Cold && !entry.ref;
      if evicted {
        EvictAtClock();
      } else {
        PassAtClock();
      }
    }

    lemma OverCapacityIsNotFitting()
      requires Counted()
      ensures OverCapacity() <==> !C.Fits(Ring(R()), policy.Caps())
      ensures |Ring(R())| == |residentOrder|
    {
      L.ListsLength(residentOrder, resident.Keys);
      RingDistinct(R());
      RingWeighs(R(), AllBytes);
    }

    /** Part way through a sweep that began at (r0, g0, age0) and has evicted the pages in gone. */
    ghost predicate Sweeping(r0: Residents, g0: Ghosts, age0: nat, gone: seq<string>)
      reads this
    {
      && Counted() && GhostsCounted()
      && SweepingFrom(r0, R(), gone, policy.Caps())
      && HauntedBy(r0, gone, g0, age0, G(), nonresidentAge, tick, useTick, policy)
      && (OverCapacity() <==> !C.Fits(Ring(R()), policy.Caps()))
    }

    method ScanInSweep(ghost r0: Residents, ghost g0: Ghosts, ghost age0: nat, ghost gone: seq<string>)
      returns (evicted: bool, ghost gone': seq<string>)
      requires Sweeping(r0, g0, age0, gone) && OverCapacity() && policy.Valid()
      modifies `resident, `residentOrder, `clock, `residentBytes, `pinnedBytes, `pinnedPages, `l2, `l3
      modifies `ghosts, `ghostOrder, `ghostBytes, `nonresidentAge
      ensures Sweeping(r0, g0, age0, gone')
      ensures old(C.PinnedRun(Ring(R())) < |Ring(R())|) && Ring(R()) == C.Visit(old(Ring(R())))
      ensures evicted == (C.Need(old(Ring(R()))[0]) == 1)
    {
      hide WellFormed, WarmOrHot, GhostsWellFormed, GhostAdded, Scanned, SweepingFrom, HauntedBy, C.Fits, Total;
      ghost var r, g, age := R(), G(), nonresidentAge;
      SweepScans(r0, r, gone, policy.Caps());
      ScanIsVisit(r);
      SweptFromStart(r0, r, gone, policy.Caps());
      evicted := ScanAtClock();
      gone' := if evicted then gone + [UnderHand(r)] else gone;
      if evicted {
        HauntOne(r0, gone, UnderHand(r), g0, age0, g, age, tick, useTick, policy);
      }
      OverCapacityIsNotFitting();
    }

    /** At most 3n + 1 scans, or until the tier fits; it never ends without an eviction. */
    method SweepRound(ghost r0: Residents, ghost g0: Ghosts, ghost age0: nat, ghost gone: seq<string>)
      returns (evicted: bool, ghost gone': seq<string>)
      requires Sweeping(r0, g0, age0, gone) && OverCapacity() && policy.Valid()
      modifies `resident, `residentOrder, `clock, `residentBytes, `pinnedBytes, `pinnedPages, `l2, `l3
      modifies `ghosts, `ghostOrder, `ghostBytes, `nonresidentAge
      ensures Sweeping(r0, g0, age0, gone') && (evicted || !OverCapacity())
      ensures Closer(Ring(R()), old(Ring(R())))
    {
      hide Sweeping, WellFormed, Closing, Closer, C.Visit, C.PinnedRun, C.NeedSum, Ring;
      evicted := false;
      gone' := gone;
      SweepIsWellFormed(r0, g0, age0, gone);
      SweepRingFacts(r0, g0, age0, gone);
      var maxScans := |residentOrder| * 3 + 1;
      var scans := 0;
      ghost var n, q0, j := |residentOrder|, Ring(R()), C.PinnedRun(Ring(R()));
      ClosingStarts(q0);
      while scans < maxScans && OverCapacity()
        invariant Sweeping(r0, g0, age0, gone') && scans <= maxScans
        invariant WellFormed(R()) && (!evicted ==> Closing(Ring(R()), j, n, scans))
        invariant if scans == 0 then Ring(R()) == q0 && OverCapacity() else Closer(Ring(R()), q0)
        decreases maxScans - scans
      {
        ghost var q := Ring(R());
        var now;
        now, gone' := ScanInSweep(r0, g0, age0, gone');
        SweepIsWellFormed(r0, g0, age0, gone');
        CloserStep(q, q0);
        if now {
          evicted := true;
        } else if !evicted {
          ClosingStep(q, j, n, scans);
          j := C.NextIndex(q, j);
        }
        scans := scans + 1;
      }
      if !evicted { ClosingBounds(Ring(R()), j, n, scans); }
    }

    lemma SweepIsWellFormed(r0: Residents, g0: Ghosts, age0: nat, gone: seq<string>)
      requires Sweeping(r0, g0, age0, gone)
      ensures WellFormed(R())
    {
    }

    lemma SweepRingFacts(r0: Residents, g0: Ghosts, age0: nat, gone: seq<string>)
      requires Sweeping(r0, g0, age0, gone) && OverCapacity()
      ensures WellFormed(R()) && |Ring(R())| == |residentOrder| && C.PinnedRun(Ring(R())) < |Ring(R())|
    {
      hide WarmOrHot, GhostsCounted, HauntedBy, C.Fits, Total, L.Lists;
      SweepScans(r0, R(), gone, policy.Caps());
      OverCapacityIsNotFitting();
    }

    /** Turn the hand until the tier fits.  It always ends well: as long as something is unpinned, one
        round of 3n + 1 scans evicts something. */
    method EnforceResidentCapacity() returns (err: Option<Error>)
      requires Counted() && GhostsCounted() && policy.Valid() && GhostsValid(G(), policy, nonresidentAge)
      requires C.Fits(C.PinnedOnly(Ring(R())), policy.Caps())
      modifies `resident, `residentOrder, `clock, `residentBytes, `pinnedBytes, `pinnedPages, `l2, `l3
      modifies `ghosts, `ghostOrder, `ghostBytes, `nonresidentAge
      ensures Counted() && GhostsCounted() && err == None
      ensures SweptTo(old(R()), R(), policy.Caps())
      ensures HauntedBy(old(R()), C.Sweep(Ring(old(R())), policy.Caps()).victims, old(G()), old(nonresidentAge),
                        G(), nonresidentAge, tick, useTick, policy)
    {
      hide WellFormed, WarmOrHot, GhostsWellFormed, SweepingFrom, HauntedBy, C.Sweep, C.Fits, Total, SweptTo;
      ghost var r0, g0, age0 := R(), G(), nonresidentAge;
      ghost var gone: seq<string> := [];
      SweepBegins(r0, policy.Caps());
      HauntNone(r0, g0, age0, tick, useTick, policy);
      OverCapacityIsNotFitting();
      while OverCapacity()
        invariant Sweeping(r0, g0, age0, gone)
        decreases C.NeedSum(Ring(R())), C.PinnedRun(Ring(R()))
      {
        var evicted;
        evicted, gone := SweepRound(r0, g0, age0, gone);
        if !evicted && OverCapacity() {
          assert false;
        }
      }
      SweepEnds(r0, R(), gone, policy.Caps());
      err := None;
    }

    // ---- admission ----

    /** Whether the caps can be met with the page in place, from the counters alone. */
    method PreflightCapacity(newSize: nat, oldSize: nat, alreadyResident: bool, targetPinned: bool, wasPinned: bool, ghost p: Page)
      returns (err: Option<Error>)
      requires Counted() && policy.Valid() && WithinCaps(R(), policy)
      requires newSize == p.Size() && oldSize == OldSize(R(), p.id)
      requires alreadyResident == (p.id in resident) && wasPinned == WasPinned(R(), p.id)
      ensures err == if !PinsFit(R(), p, targetPinned, policy) then Some(PinnedCapacity)
                     else if !FloorFits(R(), p, targetPinned, policy) then Some(CapacityExceeded)
                     else None
      ensures err == None <==> Feasible(R(), p, targetPinned, policy)
    {
      hide L.Lists, L.Sum, Total, Feasible, WarmOrHot;
      FloorDecidesFeasibility(R(), p, targetPinned, policy);
      CountersOfOthers(R(), p.id);
      var addPages := if alreadyResident then 0 else 1;
      var addBytes := newSize - oldSize;
      var pins, pinBytes := pinnedPages, pinnedBytes;
      if wasPinned && !targetPinned {
        pins, pinBytes := pins - 1, pinBytes - oldSize;
      } else if targetPinned && !wasPinned {
        pins, pinBytes := pins + 1, pinBytes + newSize;
      } else if targetPinned && wasPinned {
        pinBytes := pinBytes + addBytes;
      }
      if pins > policy.maxPinnedPages || pinBytes > policy.maxPinnedBytes {
        return Some(PinnedCapacity);
      }
      // The pinned caps are within the resident caps, so the pinned set alone cannot exceed those.
      var residentPagesAfter := |resident| + addPages;
      var residentBytesAfter := residentBytes + addBytes;
      if residentPagesAfter <= policy.maxResidentPages && residentBytesAfter <= policy.maxResidentBytes {
        return None;
      }
      var minPages := if targetPinned then pins else pins + 1;
      var minBytes := if targetPinned then pinBytes else pinBytes + newSize;
      if minPages > policy.maxResidentPages || minBytes > policy.maxResidentBytes {
        return Some(CapacityExceeded);
      }
      return None;
    }

    method InsertResident(e: Entry)
      requires Counted() && e.page.id !in resident
      modifies `resident, `residentOrder, `residentBytes, `pinnedBytes, `pinnedPages, `l2, `l3
      ensures Counted() && R() == Inserted(old(R()), e)
    {
      hide L.Lists, Total, WarmOrHot;
      InsertionFacts(R(), e);
      WarmOrHotUpdated(resident, e.page.id, e, false);
      WarmOrHotUpdated(resident, e.page.id, e, true);
      resident := resident[e.page.id := e];
      residentOrder := residentOrder + [e.page.id];
      residentBytes := residentBytes + e.page.Size();
      if e.state == C.Pinned {
        pinnedPages := pinnedPages + 1;
        pinnedBytes := pinnedBytes + e.page.Size();
      }
      SyncResidentTier(e.page.id);
    }

    /** Put a new entry in the place of a resident's old one. */
    method ReplaceEntry(id: string, e: Entry)
      requires Counted() && id in resident && e.page.id == id
      modifies `resident, `residentBytes, `pinnedBytes, `pinnedPages, `l2, `l3
      ensures Counted() && R() == Updated(old(R()), id, e)
    {
      hide L.Lists, Total, WarmOrHot;
      UpdateFacts(R(), id, e);
      WarmOrHotUpdated(resident, id, e, false);
      WarmOrHotUpdated(resident, id, e, true);
      var was := resident[id];
      residentBytes := residentBytes + e.page.Size() - was.page.Size();
      if was.state == C.Pinned {
        pinnedPages := pinnedPages - 1;
        pinnedBytes := pinnedBytes - was.page.Size();
      }
      if e.state == C.Pinned {
        pinnedPages := pinnedPages + 1;
        pinnedBytes := pinnedBytes + e.page.Size();
      }
      resident := resident[id := e];
      SyncResidentTier(id);
    }

    // ---- the same operations, seen on the whole hierarchy ----

    method Remove(id: string)
      requires Ok()
      modifies this
      ensures Ok() && T() == old(T()).(residents := Removed(old(R()), id)) && H() == old(H())
    {
      hide WellFormed, Total, WarmOrHot, GhostsWellFormed, GhostBytes, ShadowsWellFormed, ShadowBytes, Removed;
      RemoveResident(id);
    }

    method Insert(e: Entry)
      requires Ok() && e.page.id !in resident
      modifies this
      ensures Ok() && T() == old(T()).(residents := Inserted(old(R()), e)) && H() == old(H())
    {
      hide WellFormed, Total, WarmOrHot, GhostsWellFormed, GhostBytes, ShadowsWellFormed, ShadowBytes, Inserted;
      InsertResident(e);
    }

    method Replace(id: string, e: Entry)
      requires Ok() && id in resident && e.page.id == id
      modifies this
      ensures Ok() && T() == old(T()).(residents := Updated(old(R()), id, e)) && H() == old(H())
    {
      hide WellFormed, Total, WarmOrHot, GhostsWellFormed, GhostBytes, ShadowsWellFormed, ShadowBytes, Updated;
      ReplaceEntry(id, e);
    }

    method DropGhost(id: string)
      requires Ok()
      modifies this
      ensures Ok() && T() == old(T()).(ghosts := GhostDropped(old(G()), id)) && H() == old(H())
    {
      hide WellFormed, Total, WarmOrHot, GhostsWellFormed, GhostBytes, ShadowsWellFormed, ShadowBytes, GhostDropped;
      DeleteGhost(id);
    }

    /** Censor every shadow outside a set. */
    method CensorOthers(ghost keep: set<ShadowKey>, doomed: set<ShadowKey>)
      requires Ok() && shadows.Keys - doomed == keep
      modifies this
      ensures Ok() && T() == old(T()).(shadows := Retired(old(S()), keep, AsCensored)) && H() == old(H())
    {
      hide WellFormed, Total, WarmOrHot, GhostsWellFormed, GhostBytes, ShadowsWellFormed, ShadowBytes, Retired;
      CloseShadows(doomed, AsCensored);
    }

    method CensorShadowsForID(id: string)
      requires Ok()
      modifies this
      ensures Ok() && T() == old(T()).(shadows := Retired(old(S()), KeysOfOthers(old(S()), id), AsCensored)) && H() == old(H())
    {
      hide Ok, Retired;
      CensorOthers(KeysOfOthers(S(), id), set k | k in shadows && k.tuple.id == id);
    }

    method CensorMismatching(p: Page)
      requires Ok()
      modifies this
      ensures Ok() && T() == old(T()).(shadows := Retired(old(S()), KeysNotMismatching(old(S()), p), AsCensored)) && H() == old(H())
    {
      hide Ok, Retired;
      CensorOthers(KeysNotMismatching(S(), p), set k | k in shadows && k.tuple.id == p.id && k.tuple != p.Tuple());
    }

    method Sweep()
      requires Ok() && policy.Valid() && GhostsValid(G(), policy, nonresidentAge)
      requires C.Fits(C.PinnedOnly(Ring(R())), policy.Caps())
      modifies this
      ensures Ok() && H() == old(H()) && CapacitySwept(old(T()), T(), policy)
    {
      hide WellFormed, Total, WarmOrHot, GhostsCounted, ShadowsCounted, GhostsValid, C.Fits, C.Sweep, SweptTo, HauntedBy, Ring;
      var err := EnforceResidentCapacity();
    }

    // ---- admission ----

    /** A demand that meets its own ghost consumes it and counts how far away it was evicted. */
    method ConsumeGhost(p: Page) returns (refault: bool)
      requires Ok()
      requires p.id in ghosts ==> ghosts[p.id].page.Tuple() == p.Tuple() && ghosts[p.id].evictionAge <= nonresidentAge
      modifies this
      ensures Ok() && H() == old(H()) && refault == (p.id in old(ghosts))
      ensures T() == if !refault then old(T())
                     else old(T()).(ghosts := GhostDropped(old(G()), p.id), age := old(nonresidentAge) + 1,
                                    refaultDistance := old(refaultDistance) + Distance(old(T()), p.id))
    {
      hide WellFormed, Total, WarmOrHot, GhostsWellFormed, GhostBytes, ShadowsWellFormed, ShadowBytes, GhostDropped;
      refault := p.id in ghosts;
      if refault {
        refaultDistance := refaultDistance + (nonresidentAge - ghosts[p.id].evictionAge);
        nonresidentAge := nonresidentAge + 1;
        DropGhost(p.id);
      }
    }

    /** A page that was not resident takes its place at the end of the order. */
    method PlaceNew(p: Page, mode: Mode)
      requires Ok() && p.id !in resident
      requires forall id :: id in ghosts ==> ghosts[id].evictionAge <= nonresidentAge
      modifies this
      ensures Ok() && H() == old(H())
      ensures T() == PlacedNew(old(T()), p, mode)
    {
      hide Ok, Retired, GhostDropped, KeysNotMismatching, Inserted, NewEntry;
      ghost var t := T();
      GhostDroppedIsGone(t.ghosts, p.id);
      NewEntryId(p, mode);
      if p.id in ghosts && ghosts[p.id].page.Tuple() != p.Tuple() {
        DropGhost(p.id);
      }
      CensorMismatching(p);
      var refault := false;
      if mode == Demand {
        refault := ConsumeGhost(p);
      }
      Insert(NewEntry(p, mode, refault));
    }

    /** Put an accepted page in place; only its own hints and entry are touched. */
    method Place(p: Page, mode: Mode)
      requires Ok() && IdentityAllowed(R(), p, mode)
      requires forall id :: id in ghosts ==> ghosts[id].evictionAge <= nonresidentAge
      modifies this
      ensures Ok() && H() == old(H()) && T() == BeforeSweep(old(T()), p, mode)
    {
      hide Retired, GhostDropped, KeysNotMismatching, KeysOfOthers, Inserted, Removed, Updated, NewEntry, L.Lists, Total;
      ghost var t := T();
      if p.id in resident && resident[p.id].page.Tuple() != p.Tuple() {
        StaleReplacement(t, p);
        Remove(p.id);
        DropGhost(p.id);
        CensorShadowsForID(p.id);
        PlaceNew(p, mode);
      } else if p.id !in resident {
        PlaceNew(p, mode);
      } else {
        var e := resident[p.id];
        if mode == Demand && SecondUse(e) {
          nonresidentAge := nonresidentAge + 1;
        }
        Replace(p.id, Refreshed(e, p, mode));
      }
    }

    method PlaceAndSweep(p: Page, mode: Mode)
      requires Ok() && TiersValid(T(), policy) && Refusal(T(), p, mode, policy) == None
      modifies this
      ensures Ok() && H() == old(H()) && AdmittedTo(old(T()), T(), p, mode, policy)
    {
      hide Ok, BeforeSweep, C.Fits, CapacitySwept, IdentityAllowed;
      hide ShadowsValid, GhostsValid, WithinCaps, PinsFit, FloorFits, TiersValid, WellFormed, Refusal;
      ghost var t := T();
      ReadyToPlace(t, policy);
      ReadyToSweep(t, p, mode, policy);
      Place(p, mode);
      Sweep();
    }

    /** The part of an admission that cannot fail any more. */
    method Commit(p: Page, mode: Mode)
      requires Valid() && Refusal(T(), p, mode, policy) == None
      modifies this
      ensures Valid() && AdmittedTo(old(T()), T(), p, mode, policy)
      ensures H() == (old(installed)[p.id := p], TaintedBy(old(tainted), p))
    {
      hide Ok, BodiesCurrent, AdmittedTo, TiersValid, WellFormed, Refusal;
      ghost var t := T();
      PlaceAndSweep(p, mode);
      AdmittedValid(t, T(), p, mode, policy);
      AdmittedBodiesCurrent(t, T(), p, mode, policy, installed, tainted);
      installed, tainted := installed[p.id := p], TaintedBy(tainted, p);
    }

    method AdmitLocked(p: Page, mode: Mode) returns (err: Option<Error>)
      requires Valid()
      modifies this
      ensures Valid() && err == Refusal(old(T()), p, mode, policy)
      ensures err != None ==> T() == old(T()) && H() == old(H())
      ensures err == None ==> AdmittedTo(old(T()), T(), p, mode, policy)
      ensures err == None ==> H() == (old(installed)[p.id := p], TaintedBy(old(tainted), p))
    {
      hide Counted, GhostsCounted, ShadowsCounted, AdmittedTo, BodiesCurrent, BeforeSweep, C.Fits, SweptTo, Feasible;
      hide GhostsValid, ShadowsValid, WellFormed, WithinCaps, PinsFit, FloorFits;
      if p.id == "" {
        return Some(InvalidPage);
      }
      var newSize := p.Size();
      if newSize > policy.maxPageBytes {
        return Some(PageTooLarge);
      }
      var oldSize, wasPinned, targetPinned := 0, false, mode == Pin;
      if p.id in resident {
        var was := resident[p.id];
        var differs := was.page.Tuple() != p.Tuple();
        if differs && (mode != Demand || !was.page.stale) {
          return Some(TupleMismatch);
        }
        oldSize, wasPinned := was.page.Size(), was.state == C.Pinned;
        targetPinned := !differs && (wasPinned || mode == Pin);
      }
      err := PreflightCapacity(newSize, oldSize, p.id in resident, targetPinned, wasPinned, p);
      if err == None {
        Commit(p, mode);
      }
    }

    // ---- clocks ----

    method Advance()
      requires Valid()
      modifies this
      ensures Valid() && T() == Ticked(old(T())) && H() == old(H())
    {
      hide Ok, BodiesCurrent, GhostsValid, ShadowsValid, ResidentsValid;
      tick := tick + 1;
    }

    /** A real use or demand moves the use clock and settles the shadows of the page. */
    method RecordDemand(p: Page)
      requires Valid()
      modifies this
      ensures Valid() && T() == Demanded(old(T()), p, policy) && H() == old(H())
    {
      hide BodiesCurrent, GhostsValid, ResidentsValid;
      DemandedValid(T(), p, policy);
      MoveUseClock(p);
    }

    method MoveUseClock(p: Page)
      requires Ok() && ShadowsValid(S(), policy, useTick)
      modifies this
      ensures Ok() && T() == Demanded(old(T()), p, policy) && H() == old(H())
    {
      hide Counted, GhostsCounted, ShadowsCounted, ShadowsWellFormed, ShadowBytes, Conserved, MarkedUseful, Expired;
      useTick := useTick + 1;
      MarkShadowUseful(p);
    }

    // ---- public operations ----

    /** A real demand fault: counted as a use even when it is then refused. */
    method AdmitDemand(p: Page) returns (err: Option<Error>)
      requires Valid()
      modifies this
      ensures Valid()
      ensures p.id == "" ==> err == Some(InvalidPage) && T() == old(T())
      ensures p.id != "" ==> err == Refusal(Demanded(Ticked(old(T())), p, policy), p, Demand, policy)
      ensures p.id != "" && err != None ==> T() == Demanded(Ticked(old(T())), p, policy)
      ensures err == None ==> TiersValid(Demanded(Ticked(old(T())), p, policy), policy)
      ensures err == None ==> AdmittedTo(Demanded(Ticked(old(T())), p, policy), T(), p, Demand, policy)
      ensures H() == if err == None then (old(installed)[p.id := p], TaintedBy(old(tainted), p)) else old(H())
    {
      hide Ok, BodiesCurrent, TiersValid, AdmittedTo, Refusal, Demanded;
      if p.id == "" {
        return Some(InvalidPage);
      }
      Advance();
      RecordDemand(p);
      assert T() == Demanded(Ticked(old(T())), p, policy);
      err := AdmitLocked(p, Demand);
    }

    /** Admissions that are not demands: checked before the clock moves, never counted as a use. */
    method AdmitChecked(p: Page, mode: Mode) returns (err: Option<Error>)
      requires Valid()
      modifies this
      ensures Valid()
      ensures p.id == "" || p.Size() > policy.maxPageBytes ==>
                T() == old(T()) && err == Some(if p.id == "" then InvalidPage else PageTooLarge)
      ensures p.id != "" && p.Size() <= policy.maxPageBytes ==> err == Refusal(Ticked(old(T())), p, mode, policy)
      ensures p.id != "" && p.Size() <= policy.maxPageBytes && err != None ==> T() == Ticked(old(T()))
      ensures err == None ==> TiersValid(Ticked(old(T())), policy) && AdmittedTo(Ticked(old(T())), T(), p, mode, policy)
      ensures H() == if err == None then (old(installed)[p.id := p], TaintedBy(old(tainted), p)) else old(H())
    {
      hide Ok, BodiesCurrent, TiersValid, AdmittedTo, Refusal;
      if p.id == "" {
        return Some(InvalidPage);
      }
      if p.Size() > policy.maxPageBytes {
        return Some(PageTooLarge);
      }
      Advance();
      err := AdmitLocked(p, mode);
    }

    method AdmitCold(p: Page) returns (err: Option<Error>)
      requires Valid()
      modifies this
      ensures Valid()
      ensures p.id == "" || p.Size() > policy.maxPageBytes ==>
                T() == old(T()) && err == Some(if p.id == "" then InvalidPage else PageTooLarge)
      ensures p.id != "" && p.Size() <= policy.maxPageBytes ==> err == Refusal(Ticked(old(T())), p, ColdOnly, policy)
      ensures p.id != "" && p.Size() <= policy.maxPageBytes && err != None ==> T() == Ticked(old(T()))
      ensures err == None ==> TiersValid(Ticked(old(T())), policy) && AdmittedTo(Ticked(old(T())), T(), p, ColdOnly, policy)
      ensures H() == if err == None then (old(installed)[p.id := p], TaintedBy(old(tainted), p)) else old(H())
    {
      hide Ok, BodiesCurrent, TiersValid, AdmittedTo, Refusal;
      err := AdmitChecked(p, ColdOnly);
    }

    method PinPage(p: Page) returns (err: Option<Error>)
      requires Valid()
      modifies this
      ensures Valid()
      ensures p.id == "" || p.Size() > policy.maxPageBytes ==>
                T() == old(T()) && err == Some(if p.id == "" then InvalidPage else PageTooLarge)
      ensures p.id != "" && p.Size() <= policy.maxPageBytes ==> err == Refusal(Ticked(old(T())), p, Pin, policy)
      ensures p.id != "" && p.Size() <= policy.maxPageBytes && err != None ==> T() == Ticked(old(T()))
      ensures err == None ==> TiersValid(Ticked(old(T())), policy) && AdmittedTo(Ticked(old(T())), T(), p, Pin, policy)
      ensures H() == if err == None then (old(installed)[p.id := p], TaintedBy(old(tainted), p)) else old(H())
    {
      hide Ok, BodiesCurrent, TiersValid, AdmittedTo, Refusal;
      err := AdmitChecked(p, Pin);
    }

    /** The legacy inserts move the clock first and swallow the refusal. */
    method PutLegacy(p: Page, mode: Mode)
      requires Valid() && (mode == LegacyHot || mode == LegacyWarm)
      modifies this
      ensures Valid() && TiersValid(Ticked(old(T())), policy)
      ensures if Refusal(Ticked(old(T())), p, mode, policy) == None then AdmittedTo(Ticked(old(T())), T(), p, mode, policy)
              else T() == Ticked(old(T()))
      ensures H() == if Refusal(Ticked(old(T())), p, mode, policy) == None then (old(installed)[p.id := p], TaintedBy(old(tainted), p)) else old(H())
    {
      hide Ok, BodiesCurrent, TiersValid, AdmittedTo, Refusal;
      Advance();
      var err := AdmitLocked(p, mode);
    }

    /** Change a resident's entry without touching what may be served. */
    method ChangeEntry(id: string, e: Entry)
      requires Valid() && id in resident && e.page.id == id && e.page.Size() <= resident[id].page.Size()
      requires e.state == C.Pinned && resident[id].state != C.Pinned ==> RoomForPin(T(), id, policy)
      requires e.materialized ==>
                 && resident[id].materialized && e.page.body == resident[id].page.body
                 && e.page.summary == resident[id].page.summary && e.page.stale == resident[id].page.stale
      modifies this
      ensures Valid() && T() == WithEntry(old(T()), id, e) && H() == old(H())
    {
      hide Ok, BodiesCurrent, GhostsValid, ShadowsValid, ResidentsValid, Updated;
      WithEntryValid(T(), id, e, policy);
      WithEntryBodiesCurrent(R(), id, e, installed, tainted);
      Replace(id, e);
    }

    method PinResident(p: Page) returns (err: Option<Error>)
      requires Valid()
      modifies this
      ensures Valid() && H() == old(H())
      ensures err == if p.id == "" then Some(InvalidPage)
                     else if p.id !in old(resident) then Some(NotResident)
                     else if old(resident)[p.id].page.Tuple() != p.Tuple() then Some(TupleMismatch)
                     else if old(resident)[p.id].state != C.Pinned && !RoomForPin(old(T()), p.id, policy) then Some(PinnedCapacity)
                     else None
      ensures T() == if p.id == "" then old(T())
                     else if err != None || old(resident)[p.id].state == C.Pinned then Ticked(old(T()))
                     else WithEntry(Ticked(old(T())), p.id, PinnedEntry(old(resident)[p.id]))
    {
      hide BodiesCurrent, GhostsValid, ShadowsValid, L.Lists, Total, WarmOrHot, GhostBytes, ShadowBytes, Updated;
      if p.id == "" {
        return Some(InvalidPage);
      }
      Advance();
      if p.id !in resident {
        return Some(NotResident);
      }
      var e := resident[p.id];
      if e.page.Tuple() != p.Tuple() {
        return Some(TupleMismatch);
      }
      if e.state == C.Pinned {
        return None;
      }
      var addBytes := e.page.Size();
      if pinnedPages + 1 > policy.maxPinnedPages || pinnedBytes + addBytes > policy.maxPinnedBytes {
        return Some(PinnedCapacity);
      }
      ChangeEntry(p.id, PinnedEntry(e));
      err := None;
    }

    method Unpin(p: Page) returns (err: Option<Error>)
      requires Valid()
      modifies this
      ensures Valid() && H() == old(H())
      ensures err == if p.id == "" then Some(InvalidPage)
                     else if p.id !in old(resident) then Some(NotResident)
                     else if old(resident)[p.id].page.Tuple() != p.Tuple() then Some(TupleMismatch)
                     else None
      ensures T() == if p.id == "" then old(T())
                     else if err != None || old(resident)[p.id].state != C.Pinned then Ticked(old(T()))
                     else WithEntry(Ticked(old(T())), p.id, UnpinnedEntry(old(resident)[p.id]))
    {
      hide Ok, BodiesCurrent, GhostsValid, ShadowsValid, WithinCaps, L.Lists, Updated;
      if p.id == "" {
        return Some(InvalidPage);
      }
      Advance();
      if p.id !in resident {
        return Some(NotResident);
      }
      var e := resident[p.id];
      if e.page.Tuple() != p.Tuple() {
        return Some(TupleMismatch);
      }
      if e.state == C.Pinned {
        ChangeEntry(p.id, UnpinnedEntry(e));
      }
      err := None;
    }

    method RecordAccess(id: string)
      requires Valid()
      modifies this
      ensures Valid() && H() == old(H())
      ensures T() == if id in old(resident) then WithEntry(Ticked(old(T())), id, TouchedEntry(old(resident)[id])) else Ticked(old(T()))
    {
      hide Ok, BodiesCurrent, GhostsValid, ShadowsValid, WithinCaps, L.Lists, Updated;
      Advance();
      if id in resident {
        ChangeEntry(id, TouchedEntry(resident[id]));
      }
    }

    /** Revalidation makes a resident active again but takes its body away. */
    method Revalidate(p: Page) returns (err: Option<Error>)
      requires Valid()
      modifies this
      ensures Valid() && H() == old(H())
      ensures err == if p.id == "" then Some(InvalidPage)
                     else if p.id !in old(resident) then Some(NotResident)
                     else if old(resident)[p.id].page.Tuple() != p.Tuple() then Some(TupleMismatch)
                     else None
      ensures T() == if p.id == "" then old(T())
                     else if err != None then Ticked(old(T()))
                     else WithEntry(Ticked(old(T())), p.id, BodyCleared(old(resident)[p.id]))
    {
      hide Ok, BodiesCurrent, GhostsValid, ShadowsValid, WithinCaps, L.Lists, Updated;
      if p.id == "" {
        return Some(InvalidPage);
      }
      Advance();
      if p.id !in resident {
        return Some(NotResident);
      }
      var e := resident[p.id];
      if e.page.Tuple() != p.Tuple() {
        return Some(TupleMismatch);
      }
      BodyClearedSize(e);
      ChangeEntry(p.id, BodyCleared(e));
      err := None;
    }

    // ---- uses ----

    /** A cache hit: the page as it was, counted as a real use of exactly that instance. */
    method UseResident(id: string) returns (page: Page, result: UseResult)
      requires Valid() && id in resident
      modifies this
      ensures Valid() && H() == old(H()) && T() == Used(old(T()), id, policy)
      ensures page == old(resident)[id].page
      ensures result == UseResult(page.Tuple(), UsedEntry(old(resident)[id]).state, SecondUse(old(resident)[id]))
    {
      hide Ok, BodiesCurrent, GhostsValid, ShadowsValid, ResidentsValid, MarkedUseful, Expired, Updated;
      ghost var t := T();
      UsedValid(t, id, policy);
      UsedEntryFits(R(), id, policy);
      WithEntryBodiesCurrent(R(), id, UsedEntry(resident[id]), installed, tainted);
      var e := resident[id];
      page := e.page;
      CountUse(id, e);
      result := UseResult(page.Tuple(), UsedEntry(e).state, SecondUse(e));
    }

    method CountUse(id: string, e: Entry)
      requires Ok() && ShadowsValid(S(), policy, useTick) && id in resident && e == resident[id] && e.page.id == id
      modifies this
      ensures Ok() && H() == old(H()) && T() == Used(old(T()), id, policy)
    {
      hide Ok, ShadowsValid, MarkedUseful, Expired, Updated;
      MoveUseClock(e.page);
      if SecondUse(e) {
        nonresidentAge := nonresidentAge + 1;
      }
      Replace(id, UsedEntry(e));
    }

    method Use(id: string) returns (hit: Option<(Page, UseResult)>)
      requires Valid()
      modifies this
      ensures Valid() && H() == old(H())
      ensures hit == None <==> !Servable(old(T()), id)
      ensures hit == None ==> T() == if id == "" then old(T()) else Ticked(old(T()))
      ensures hit != None ==> T() == Used(Ticked(old(T())), id, policy) && ServedBody(hit.value.0, id)
    {
      hide Ok, GhostsValid, ShadowsValid, WithinCaps, L.Lists, Used;
      hit := None;
      if id == "" {
        return;
      }
      Advance();
      if id !in resident || !resident[id].page.Usable() || !resident[id].materialized {
        return;
      }
      var page, result := UseResident(id);
      hit := Some((page, result));
    }

    /** The page handed out is the resident one, its body is the one installed by the last admission
        of its id, and nothing has marked that resident stale since. */
    twostate predicate ServedBody(page: Page, id: string)
      reads this
    {
      && id in old(resident) && page == old(resident)[id].page && page.Usable()
      && id in installed && page.body == installed[id].body && page.summary == installed[id].summary
      && id !in tainted
    }

    /** A hit only if the resident text is exactly the caller's. */
    method LookupAndUseIfMaterialization(id: string, body: string, summary: string) returns (hit: Option<(Page, UseResult)>)
      requires Valid()
      modifies this
      ensures Valid() && H() == old(H())
      ensures hit != None <==> Servable(old(T()), id) && old(resident)[id].page.body == body && old(resident)[id].page.summary == summary
      ensures hit == None ==> T() == if id == "" then old(T()) else Ticked(old(T()))
      ensures hit != None ==> T() == Used(Ticked(old(T())), id, policy) && ServedBody(hit.value.0, id)
    {
      hide Ok, GhostsValid, ShadowsValid, WithinCaps, L.Lists, Used;
      hit := None;
      if id == "" {
        return;
      }
      Advance();
      if id !in resident || !resident[id].page.Usable() || !resident[id].materialized {
        return;
      }
      if resident[id].page.body != body || resident[id].page.summary != summary {
        return;
      }
      var page, result := UseResident(id);
      hit := Some((page, result));
    }

    /** A hit only if the resident copy is exactly the caller's current page. */
    method LookupAndUseIfCurrent(expected: Page) returns (hit: Option<(Page, UseResult)>)
      requires Valid()
      modifies this
      ensures Valid() && H() == old(H())
      ensures hit != None <==> Servable(old(T()), expected.id) && CurrentMatches(old(resident)[expected.id].page, expected)
      ensures hit == None ==> T() == if expected.id == "" then old(T()) else Ticked(old(T()))
      ensures hit != None ==> T() == Used(Ticked(old(T())), expected.id, policy) && ServedBody(hit.value.0, expected.id)
    {
      hide Ok, GhostsValid, ShadowsValid, WithinCaps, L.Lists, Used, CurrentMatches;
      hit := None;
      if expected.id == "" {
        return;
      }
      Advance();
      if expected.id !in resident || !resident[expected.id].page.Usable() || !resident[expected.id].materialized {
        return;
      }
      if !CurrentMatches(resident[expected.id].page, expected) {
        return;
      }
      var page, result := UseResident(expected.id);
      hit := Some((page, result));
    }

    method GetPage(id: string) returns (page: Option<Page>)
      requires Valid()
      ensures page == if id in resident then Some(resident[id].page) else None
    {
      hide GhostsCounted, ShadowsCounted, BodiesCurrent, GhostsValid, ShadowsValid, Total;
      page := if id in l2 || id in l3 then Some(resident[id].page) else None;
    }

    // ---- shootdown and reconciliation ----

    /** Remove every trace of an id, leaving no ghost. */
    method ShootDown(id: string)
      requires Valid()
      modifies this
      ensures Valid() && H() == old(H()) && T() == ShotDown(old(T()), id)
    {
      hide Ok, BodiesCurrent, TiersValid, WellFormed, Removed, GhostDropped, Retired;
      ReadyToPlace(T(), policy);
      ShotDownValid(T(), id, policy);
      ShotDownBodiesCurrent(T(), id, installed, tainted);
      Remove(id);
      DropGhost(id);
      CensorShadowsForID(id);
    }

    method Invalidate(p: Page) returns (err: Option<Error>)
      requires Valid()
      modifies this
      ensures Valid() && H() == old(H())
      ensures err == if p.id == "" then Some(InvalidPage)
                     else if p.id in old(resident) && old(resident)[p.id].page.Tuple() != p.Tuple() then Some(TupleMismatch)
                     else None
      ensures T() == if p.id == "" then old(T()) else if err != None then Ticked(old(T())) else ShotDown(Ticked(old(T())), p.id)
    {
      hide Ok, BodiesCurrent, GhostsValid, ShadowsValid, ResidentsValid, ShotDown;
      if p.id == "" {
        return Some(InvalidPage);
      }
      Advance();
      if p.id in resident && resident[p.id].page.Tuple() != p.Tuple() {
        return Some(TupleMismatch);
      }
      ShootDown(p.id);
      err := None;
    }

    method Shootdown(id: string)
      requires Valid()
      modifies this
      ensures Valid() && H() == old(H())
      ensures T() == if id == "" then old(T()) else ShotDown(Ticked(old(T())), id)
    {
      hide Ok, BodiesCurrent, TiersValid, ShotDown;
      if id != "" {
        Advance();
        ShootDown(id);
      }
    }

    method PurgeAllGhosts()
      requires Valid()
      modifies this
      ensures Valid() && H() == old(H()) && T() == GhostsPurged(Ticked(old(T())))
    {
      hide Counted, ShadowsCounted, BodiesCurrent, ResidentsValid, ShadowsValid, L.Lists, GhostsKept, GhostDropped;
      Advance();
      ghost var t, g := T(), G();
      GhostsPurgedValid(t, policy);
      GhostsKeptAll(g);
      GhostSuffix(g, 0);
      ghost var n := 0;
      while |ghostOrder| > 0
        invariant Ok() && H() == old(H()) && n <= |g.order|
        invariant T() == t.(ghosts := GhostsKept(g, L.Members(g.order[n..])))
        decreases |g.order| - n
      {
        GhostSuffix(g, n);
        assert L.Members(g.order[n..]) - {g.order[n]} == L.Members(g.order[n + 1..]) by { GhostSuffixHead(g, n); }
        GhostsKeptThenDropped(g, L.Members(g.order[n..]), g.order[n]);
        DropGhost(ghostOrder[0]);
        n := n + 1;
      }
      GhostSuffix(g, n);
      NothingListed(G());
    }

    method CensorAllShadows()
      requires Valid()
      modifies this
      ensures Valid() && H() == old(H()) && T() == ShadowsCensored(Ticked(old(T())))
    {
      hide Ok, BodiesCurrent, TiersValid, Retired;
      Advance();
      CensorValid(T(), {}, policy);
      CensorOthers({}, shadows.Keys);
    }

    /** An authoritative demand clears other identities of its id first, even if it is then refused. */
    method AdmitAuthoritativeDemand(p: Page) returns (err: Option<Error>)
      requires Valid()
      modifies this
      ensures Valid()
      ensures p.id == "" ==> err == Some(InvalidPage) && T() == old(T())
      ensures p.id != "" ==>
                var t := Demanded(Ticked(old(T())), p, policy);
                WellFormed(t.residents) && TiersValid(AuthorityCleared(t, p), policy)
                && err == Refusal(AuthorityCleared(t, p), p, Demand, policy)
                && (if err == None then AdmittedTo(AuthorityCleared(t, p), T(), p, Demand, policy) else T() == AuthorityCleared(t, p))
      ensures H() == if err == None then (old(installed)[p.id := p], TaintedBy(old(tainted), p)) else old(H())
    {
      hide Ok, BodiesCurrent, TiersValid, WellFormed, AdmittedTo, Refusal, Demanded, AuthorityCleared;
      if p.id == "" {
        return Some(InvalidPage);
      }
      Advance();
      RecordDemand(p);
      ClearOtherIdentities(p);
      err := AdmitLocked(p, Demand);
    }

    method ClearOtherIdentities(p: Page)
      requires Valid()
      modifies this
      ensures WellFormed(old(T()).residents)
      ensures Valid() && H() == old(H()) && T() == AuthorityCleared(old(T()), p)
    {
      hide Ok, BodiesCurrent, TiersValid, WellFormed, Removed, GhostDropped, Retired;
      ReadyToPlace(T(), policy);
      AuthorityClearedValid(T(), p, policy);
      ShotDownBodiesCurrent(T(), p.id, installed, tainted);
      if p.id in resident && resident[p.id].page.Tuple() != p.Tuple() {
        Remove(p.id);
      }
      if p.id in ghosts && ghosts[p.id].page.Tuple() != p.Tuple() {
        DropGhost(p.id);
      }
      CensorMismatching(p);
    }

    /** Expire what is due, then file the bodyless observation. */
    method FileObservation(cp: Page, ordinal: int) returns (ok: bool)
      requires Ok() && policy.Valid() && cp.Bodyless() && Expired(S(), useTick, policy) == S()
      requires policy.shadowUseHorizon == 0 ==> shadows == map[]
      requires forall k :: k in shadows ==> shadows[k].observedAt <= useTick
      modifies this
      ensures Ok() && H() == old(H()) && ShadowsWellFormed(old(S()))
      ensures T() == ObservedTiers(old(T()), cp, ordinal, policy) && ok == Observed(old(S()), cp, ordinal, old(useTick), policy).1
    {
      hide Counted, GhostsCounted, ShadowsCounted, Observed, Expired, L.Lists, Page.Size, Page.Tuple, Page.Bodyless;
      ShadowsAreWellFormed();
      ExpireShadows();
      ok := PutShadow(cp, ordinal);
    }

    /** Record a semantic candidate that was seen; nothing becomes resident. */
    method ObserveSemantic(p: Page, ordinal: int) returns (err: Option<Error>)
      requires Valid()
      modifies this
      ensures Valid() && H() == old(H())
      ensures p.id == "" ==> err == Some(InvalidPage) && T() == old(T())
      ensures p.id != "" ==>
                ShadowsWellFormed(old(S()))
                && T() == ObservedTiers(Ticked(old(T())), p.Metadata(), ordinal, policy)
                && (err == None <==> Observed(old(S()), p.Metadata(), ordinal, old(useTick), policy).1)
    {
      hide Ok, BodiesCurrent, TiersValid, Observed, Expired;
      if p.id == "" {
        return Some(InvalidPage);
      }
      Advance();
      ObservedTiersValid(T(), p.Metadata(), ordinal, policy);
      ShadowsStartFresh(T(), policy);
      var ok := FileObservation(p.Metadata(), ordinal);
      err := if ok then None else Some(CapacityExceeded);
    }

    /** One verdict of a reconciliation, ignored when its page is no longer the resident one. */
    method ReconcileOne(v: Verdict)
      requires Valid()
      modifies this
      ensures Valid() && WellFormed(old(R()))
      ensures T() == ReconciledOne(old(T()), v.tuple, v.coherence, policy)
      ensures installed == old(installed) && tainted == TaintedAfter(old(T()), v, old(tainted))
    {
      hide BodiesCurrent, GhostsValid, ShadowsValid, L.Lists, Total, WarmOrHot, GhostBytes, ShadowBytes;
      hide Removed, GhostDropped, Retired, Updated, GhostsWellFormed, ShadowsWellFormed;
      ghost var t := T();
      ReconciledOneValid(t, v.tuple, v.coherence, policy);
      ReconciledBodiesCurrent(t, v, policy, installed, tainted);
      var id := v.tuple.id;
      if id in resident && resident[id].page.Tuple() == v.tuple {
        ApplyVerdict(id, v.coherence);
        tainted := if v.coherence.stale then tainted + {id} else tainted;
      }
    }

    method ApplyVerdict(id: string, c: Coherence)
      requires Ok() && id in resident && resident[id].page.id == id
      modifies this
      ensures Ok() && H() == old(H())
      ensures T() == ReconciledOne(old(T()), old(resident)[id].page.Tuple(), c, policy)
    {
      hide Removed, GhostDropped, Retired, Updated, GhostsWellFormed, ShadowsWellFormed, L.Lists, Total, WarmOrHot;
      var e := resident[id];
      var next := Refresh(e, c);
      if c.invalidated {
        Remove(id);
        DropGhost(id);
        CensorShadowsForID(id);
        return;
      }
      var fits := FitsInPlace(e, next.page);
      if !fits {
        Remove(id);
        DropGhost(id);
        return;
      }
      if e.page.stale && !c.stale {
        DropGhost(id);
      }
      Replace(id, next);
    }

    /** The caps a refreshed page must still meet, checked on the counters. */
    method FitsInPlace(e: Entry, next: Page) returns (ok: bool)
      requires Counted() && e.page.id in resident && resident[e.page.id] == e
      ensures ok == RefreshFits(R(), e.page.id, next, policy)
    {
      hide L.Lists, Total, WarmOrHot;
      var diff := next.Size() - e.page.Size();
      ok := next.Size() <= policy.maxPageBytes && residentBytes + diff <= policy.maxResidentBytes
            && (e.state == C.Pinned ==> pinnedBytes + diff <= policy.maxPinnedBytes);
    }

    /** Apply verdicts computed outside the lock, in resident order. */
    method Reconcile(verdicts: seq<Verdict>)
      requires Valid()
      modifies this
      ensures Valid() && installed == old(installed) && TiersValid(Ticked(old(T())), policy)
      ensures T() == ReconciledAll(Ticked(old(T())), verdicts, policy)
      ensures tainted == TaintedAll(Ticked(old(T())), verdicts, policy, old(tainted))
    {
      hide Ok, BodiesCurrent, TiersValid, ReconciledOne, TaintedAfter;
      Advance();
      ghost var t := T();
      var i := 0;
      assert verdicts[..0] == [];
      while i < |verdicts|
        invariant 0 <= i <= |verdicts| && Valid() && installed == old(installed)
        invariant T() == ReconciledAll(t, verdicts[..i], policy)
        invariant tainted == TaintedAll(t, verdicts[..i], policy, old(tainted))
      {
        assert verdicts[..i + 1][..i] == verdicts[..i];
        ReconcileOne(verdicts[i]);
        i := i + 1;
      }
      assert verdicts[..i] == verdicts;
    }
  }

  /** The counters of the pages other than one, and how the pinned part relates to the whole. */
  lemma CountersOfOthers(r: Residents, id: string)
    requires WellFormed(r)
    ensures forall m :: OthersPinned(r, id, m) == Total(r, m) - (if id in r.entries then Weight(r.entries[id], m) else 0)
    ensures OthersPinned(r, id, PinBytes) <= OthersPinned(r, id, AllBytes)
    ensures OthersPinned(r, id, PinCount) <= |r.entries| - (if id in r.entries then 1 else 0)
  {
    var all, few := r.entries.Keys - {id}, r.entries.Keys - {id} - Unpinned(r);
    L.ListsLength(r.order, r.entries.Keys);
    FloorIsPinned(r, id);
    KeptOthers(r, id);
    L.SumKeepMonotone(r.order, few, all, Weights(r.entries, AllBytes));
  }

  lemma KeptOthers(r: Residents, id: string)
    requires WellFormed(r)
    ensures |L.Keep(r.order, r.entries.Keys - {id})| == |r.order| - (if id in r.entries then 1 else 0)
    ensures KeptTotal(r, r.entries.Keys - {id}, AllBytes) == OthersPinned(r, id, AllBytes)
  {
    L.KeepMembers(r.order, r.entries.Keys - {id});
    L.WithoutIsKeep(r.order, r.entries.Keys, id);
    L.WithoutLists(r.order, r.entries.Keys, id);
    if id in r.entries {
      L.SumWithout(r.order, r.entries.Keys, id, Weights(r.entries, AllBytes), Weights(r.entries, AllBytes));
    }
  }

  lemma NewEntryId(p: Page, mode: Mode)
    ensures forall refault :: NewEntry(p, mode, refault).page.id == p.id
  {
  }

  lemma GhostDroppedIsGone(g: Ghosts, id: string)
    ensures id !in GhostDropped(g, id).entries
  {
  }

  lemma InsertionFacts(r: Residents, e: Entry)
    requires WellFormed(r) && e.page.id !in r.entries
    ensures WellFormed(Inserted(r, e))
    ensures forall m :: Total(Inserted(r, e), m) == Total(r, m) + Weight(e, m)
  {
    forall m ensures WellFormed(Inserted(r, e)) && Total(Inserted(r, e), m) == Total(r, m) + Weight(e, m) {
      InsertedTotal(r, e, m);
    }
    InsertedTotal(r, e, AllBytes);
  }

  lemma UpdateFacts(r: Residents, id: string, e: Entry)
    requires WellFormed(r) && id in r.entries && e.page.id == id
    ensures WellFormed(Updated(r, id, e))
    ensures forall m :: Total(Updated(r, id, e), m) == Total(r, m) - Weight(r.entries[id], m) + Weight(e, m)
  {
    forall m
      ensures WellFormed(Updated(r, id, e))
      ensures Total(Updated(r, id, e), m) == Total(r, m) - Weight(r.entries[id], m) + Weight(e, m)
    {
      UpdatedTotal(r, id, e, m);
    }
    UpdatedTotal(r, id, e, AllBytes);
  }

  /** No slot has gone yet, and the one tracked is due within the scans that are left. */
  ghost predicate Closing(q: seq<C.Slot>, j: nat, n: nat, scans: nat) {
    |q| == n && j < n && C.Need(q[j]) > 0 && C.VisitsDue(q, j) >= 1 && scans + C.VisitsDue(q, j) <= 3 * n
  }

  ghost predicate Closer(q: seq<C.Slot>, q0: seq<C.Slot>) {
    C.NeedSum(q) < C.NeedSum(q0) || (C.NeedSum(q) == C.NeedSum(q0) && C.PinnedRun(q) < C.PinnedRun(q0))
  }

  lemma {:induction false} ClosingStarts(q: seq<C.Slot>)
    requires C.PinnedRun(q) < |q|
    ensures Closing(q, C.PinnedRun(q), |q|, 0)
  {
    C.FirstUnpinned(q);
    C.DueWithinThreeRounds(q, C.PinnedRun(q));
  }

  lemma ClosingStep(q: seq<C.Slot>, j: nat, n: nat, scans: nat)
    requires |q| > 0 && C.Need(q[0]) != 1 && Closing(q, j, n, scans)
    ensures j < |q| && Closing(C.Visit(q), C.NextIndex(q, j), n, scans + 1)
  {
    hide C.VisitsDue;
    C.VisitBringsCloser(q, j);
    C.DueWithinThreeRounds(C.Visit(q), C.NextIndex(q, j));
    assert |C.Visit(q)| == n;
  }

  lemma ClosingBounds(q: seq<C.Slot>, j: nat, n: nat, scans: nat)
    requires Closing(q, j, n, scans)
    ensures scans <= 3 * n
  {
  }

  lemma {:induction false} CloserStep(q: seq<C.Slot>, q0: seq<C.Slot>)
    requires C.PinnedRun(q) < |q| && (q == q0 || Closer(q, q0))
    ensures Closer(C.Visit(q), q0)
  {
    C.VisitProgress(q);
  }

  lemma PassingKeepsCounts(r: Residents)
    requires WellFormed(r) && |r.order| > 0
    ensures WellFormed(ScannedOver(r))
    ensures forall m :: Total(ScannedOver(r), m) == Total(r, m)
  {
    hide L.Sum, L.Lists, Page.Size;
    var id := UnderHand(r);
    forall m ensures WellFormed(ScannedOver(r)) && Total(ScannedOver(r), m) == Total(r, m) {
      UpdatedTotal(r, id, AgedEntry(r.entries[id]), m);
    }
    UpdatedTotal(r, id, AgedEntry(r.entries[id]), AllBytes);
  }

  /** Aging moves a page to the lower tier map exactly when it is demoted. */
  lemma AgingKeepsTierMaps(entries: map<string, Entry>, id: string)
    requires id in entries
    ensures forall cold ::
              WarmOrHot(entries[id := AgedEntry(entries[id])], cold)
              == if AgedEntry(entries[id]).state == entries[id].state then WarmOrHot(entries, cold)
                 else if cold then WarmOrHot(entries, cold) + {id} else WarmOrHot(entries, cold) - {id}
  {
  }

  /** The shadows kept by a suffix are listed by it and weigh what it weighs. */
  lemma ShadowSuffix(s: Shadows, n: nat, outcome: Outcome)
    requires ShadowsWellFormed(s) && n <= |s.order|
    ensures var k := Retired(s, L.Members(s.order[n..]), outcome);
            k.order == s.order[n..] && ShadowsWellFormed(k)
            && ShadowBytes(k) == L.Sum(s.order[n..], ShadowSizes(s.entries))
    ensures L.NoDuplicates(s.order) && forall k :: k in s.order ==> k in s.entries
    ensures L.Members(s.order[n..]) <= s.entries.Keys && (n < |s.order| ==> s.order[n] in L.Members(s.order[n..]))
    ensures L.Members(s.order[0..]) == s.entries.Keys
  {
    var k := Retired(s, L.Members(s.order[n..]), outcome);
    L.KeepSuffix(s.order, n);
    RetiredWellFormed(s, L.Members(s.order[n..]), outcome);
    L.SumAgrees(k.order, ShadowSizes(k.entries), ShadowSizes(s.entries));
    ShadowSuffixMembers(s, n);
  }

  lemma ShadowSuffixMembers(s: Shadows, n: nat)
    requires ShadowsWellFormed(s) && n <= |s.order|
    ensures L.Members(s.order[n..]) <= s.entries.Keys && (n < |s.order| ==> s.order[n] in L.Members(s.order[n..]))
    ensures L.Members(s.order[0..]) == s.entries.Keys
  {
    assert s.order[0..] == s.order;
    if n < |s.order| { assert s.order[n..][0] == s.order[n]; }
    forall k | k in L.Members(s.order[n..]) ensures k in s.order {
      var i :| 0 <= i < |s.order[n..]| && s.order[n..][i] == k;
      assert s.order[n + i] == k;
    }
  }

  lemma GhostSuffixHead(g: Ghosts, n: nat)
    requires GhostsWellFormed(g) && n < |g.order|
    ensures L.Members(g.order[n..]) - {g.order[n]} == L.Members(g.order[n + 1..])
  {
    assert g.order[n..] == [g.order[n]] + g.order[n + 1..];
    forall x | x in L.Members(g.order[n + 1..]) ensures x in L.Members(g.order[n..]) - {g.order[n]} {
      var i :| 0 <= i < |g.order[n + 1..]| && g.order[n + 1..][i] == x;
      assert g.order[n..][i + 1] == x;
    }
  }

  lemma NothingListed(g: Ghosts)
    requires GhostsWellFormed(g) && g.order == []
    ensures g == Ghosts(map[], [])
  {
    assert g.entries.Keys == {};
  }

  lemma ShadowsStartFresh(t: Tiers, policy: Policy)
    requires TiersValid(t, policy)
    ensures policy.Valid() && (policy.shadowUseHorizon == 0 ==> t.shadows.entries == map[])
    ensures forall k :: k in t.shadows.entries ==> t.shadows.entries[k].observedAt <= t.useTick
  {
  }

  lemma RetiredKeys(s: Shadows, keep: set<ShadowKey>, outcome: Outcome)
    requires keep <= s.entries.Keys
    ensures Retired(s, keep, outcome).entries.Keys == keep
  {
  }

  lemma MarkedAmongNone(s: Shadows, p: Page)
    ensures MarkedAmong(s, p, L.Members(s.order[..0])) == s
  {
    assert Hits(s, p, L.Members(s.order[..0])) == {};
  }

  lemma NextListed(s: Shadows, i: nat)
    requires ShadowsWellFormed(s) && i < |s.order|
    ensures s.order[i] in s.entries && s.order[i] !in L.Members(s.order[..i])
    ensures L.Members(s.order[..i + 1]) == L.Members(s.order[..i]) + {s.order[i]}
  {
    assert s.order[i] in s.order;
    assert s.order[..i + 1] == s.order[..i] + [s.order[i]];
  }

  lemma AllListed(s: Shadows)
    requires ShadowsWellFormed(s)
    ensures L.Members(s.order[..|s.order|]) == s.entries.Keys && L.Members(s.order[..0]) == {}
    ensures forall k :: k in s.order ==> k in s.entries
  {
    assert s.order[..|s.order|] == s.order;
  }

  lemma WarmOrHotRemoved(entries: map<string, Entry>, id: string, cold: bool)
    ensures WarmOrHot(entries - {id}, cold) == WarmOrHot(entries, cold) - {id}
  {
  }

  lemma WarmOrHotUpdated(entries: map<string, Entry>, id: string, e: Entry, cold: bool)
    ensures WarmOrHot(entries[id := e], cold)
         == if (e.state == C.Cold) == cold then WarmOrHot(entries, cold) + {id} else WarmOrHot(entries, cold) - {id}
  {
  }

  /** The ids a tier map holds: the cold ones below, the hot and pinned ones above. */
  function WarmOrHot(entries: map<string, Entry>, cold: bool): set<string> {
    set id | id in entries && (entries[id].state == C.Cold) == cold
  }
}
