/** The steps of the hierarchy. */
module TierLaws {
  import L = Listing
  import C = ClockRing
  import opened Pages
  import opened Residents
  import opened Estimators
  import opened Admission
  import opened Tiers

  // What each step does to one page and leaves alone elsewhere, told from the tiers before and after.

  /** The ghost of an id, if there is one, is not from the future. */
  predicate GhostPast(t: Tiers, id: string) {
    id in t.ghosts.entries ==> t.ghosts.entries[id].evictionAge <= t.age
  }

  // ---- which refusal ----

  /** The first thing wrong with an admission is what it is refused for. */
  lemma RefusalLaw(t: Tiers, p: Page, mode: Mode, policy: Policy)
    requires WellFormed(t.residents)
    ensures Refusal(t, p, mode, policy) == Some(InvalidPage) <==> p.id == ""
    ensures Refusal(t, p, mode, policy) == Some(PageTooLarge) <==> p.id != "" && p.Size() > policy.maxPageBytes
    ensures Refusal(t, p, mode, policy) == Some(TupleMismatch) <==>
              && p.id != "" && p.Size() <= policy.maxPageBytes && p.id in t.residents.entries
              && t.residents.entries[p.id].page.Tuple() != p.Tuple()
              && !(mode.Demand? && t.residents.entries[p.id].page.stale)
    ensures Refusal(t, p, mode, policy) != Some(NotResident)
  {
    hide PinsFit, FloorFits, Page.Size, L.Lists;
  }

  // ---- how a page enters ----

  /** The page comes in as new: nothing of its id is resident, or only a stale copy of another identity
      that a demand may replace. */
  predicate Arrives(t: Tiers, p: Page, mode: Mode) {
    p.id in t.residents.entries ==>
      mode.Demand? && t.residents.entries[p.id].page.Tuple() != p.Tuple() && t.residents.entries[p.id].page.stale
  }

  /** A demand for exactly the page that was evicted and is still remembered. */
  predicate Remembered(t: Tiers, p: Page, mode: Mode) {
    mode.Demand? && p.id !in t.residents.entries && p.id in t.ghosts.entries && t.ghosts.entries[p.id].page.Tuple() == p.Tuple()
  }

  /** Where a new page starts on the clock: three visits from eviction if the demand remembers it or a
      legacy insert calls it hot, two for any other demand, one if it was only warmed, none if pinned. */
  lemma NewPageLaw(t: Tiers, p: Page, mode: Mode)
    requires WellFormed(t.residents) && GhostPast(t, p.id) && Arrives(t, p, mode)
    ensures var r := BeforeSweep(t, p, mode).residents;
            && WellFormed(r) && p.id in r.entries && r.order != [] && r.order[|r.order| - 1] == p.id
            && r.entries.Keys == t.residents.entries.Keys + {p.id}
            && SlotOf(r.entries[p.id]) in Ring(r)
            && var e := r.entries[p.id]; var need := C.Need(SlotOf(e));
               && e.page == p && (e.materialized <==> p.body != "" || p.summary != "")
               && e.realUses == (if mode.Demand? then 1 else 0)
               && (need == 3 <==> Remembered(t, p, mode) || mode.LegacyHot?)
               && (need == 2 <==> mode.Demand? && !Remembered(t, p, mode))
               && (need == 1 <==> mode.ColdOnly? || mode.LegacyWarm?)
               && (need == 0 <==> mode.Pin?)
  {
    hide L.Lists, L.Sum, Page.Size, Ring, L.RemoveIndex, WellFormed;
    PlacedWellFormed(t.residents, p, mode, Refaults(t, p, mode));
    ResidentInRing(BeforeSweep(t, p, mode).residents, p.id);
  }

  /** A resident admitted again takes the new page, keeps its place, and goes hot exactly at its second
      real use; pins stay, a legacy insert may heat or cool it, and a warming changes nothing else. */
  lemma ResidentAgainLaw(t: Tiers, p: Page, mode: Mode)
    requires WellFormed(t.residents) && GhostPast(t, p.id) && p.id in t.residents.entries && !Arrives(t, p, mode)
    ensures var r := BeforeSweep(t, p, mode).residents;
            && WellFormed(r) && p.id in r.entries && r.order == t.residents.order && r.hand == t.residents.hand
            && r.entries.Keys == t.residents.entries.Keys
            && var e, e' := t.residents.entries[p.id], r.entries[p.id];
               && e'.page == (if mode.Demand? then p.(accessCount := p.accessCount + 1) else p)
               && (e'.materialized <==> p.body != "" || p.summary != "")
               && e'.realUses == e.realUses + (if mode.Demand? then 1 else 0)
               && (e'.state == C.Pinned <==> e.state == C.Pinned || mode.Pin?)
               && (e.state != C.Pinned && mode.Demand? ==> (e'.state == C.Hot <==> e.state == C.Hot || e.realUses + 1 >= 2))
               && (e.state != C.Pinned && mode.LegacyHot? ==> e'.state == C.Hot)
               && (e.state != C.Pinned && mode.LegacyWarm? ==> e'.state == C.Cold && !e'.ref)
               && (mode.ColdOnly? ==> e'.state == e.state && e'.ref == e.ref)
               && (e.state == C.Pinned && mode.LegacyWarm? ==> e'.ref == e.ref)
               && (mode.Demand? || mode.Pin? || mode.LegacyHot? ==> e'.ref)
  {
    hide L.Lists, L.Sum, Page.Size, L.RemoveIndex, WellFormed;
    PlacedWellFormed(t.residents, p, mode, Refaults(t, p, mode));
  }

  /** Apart from its own entry an admission leaves every resident as it was before the sweep, and the
      clocks and estimators move by its own page alone. */
  lemma AdmissionAsideLaw(t: Tiers, p: Page, mode: Mode)
    requires WellFormed(t.residents) && GhostPast(t, p.id)
    ensures var b := BeforeSweep(t, p, mode);
            && (forall id :: id in t.residents.entries && id != p.id ==> id in b.residents.entries && b.residents.entries[id] == t.residents.entries[id])
            && b.tick == t.tick && b.useTick == t.useTick
            && b.age == t.age + (if Remembered(t, p, mode)
                                    || (mode.Demand? && !Arrives(t, p, mode) && t.residents.entries[p.id].state == C.Cold
                                        && t.residents.entries[p.id].realUses + 1 >= 2) then 1 else 0)
            && b.refaultDistance == t.refaultDistance + (if Remembered(t, p, mode) then t.age - t.ghosts.entries[p.id].evictionAge else 0)
  {
    hide L.Lists, WellFormed, Placed, GhostsBeforeSweep, ShadowsAfterAdmission;
    PlacedLeavesOthers(t.residents, p, mode, Refaults(t, p, mode));
    PlacedWellFormed(t.residents, p, mode, Refaults(t, p, mode));
  }

  /** The ghost of an admitted id survives exactly if the id was resident and is not replaced, or is the
      very page and was not demanded; other ghosts stay. */
  lemma AdmissionGhostLaw(t: Tiers, p: Page, mode: Mode)
    requires WellFormed(t.residents) && GhostPast(t, p.id) && L.Lists(t.ghosts.order, t.ghosts.entries.Keys)
    ensures var g := BeforeSweep(t, p, mode).ghosts;
            && (forall id :: id in g.entries ==> id in t.ghosts.entries && g.entries[id] == t.ghosts.entries[id])
            && (forall id :: id in t.ghosts.entries && id != p.id ==> id in g.entries)
            && (p.id in t.ghosts.entries ==>
                  (p.id in g.entries <==>
                     if p.id in t.residents.entries then !Arrives(t, p, mode)
                     else t.ghosts.entries[p.id].page.Tuple() == p.Tuple() && !mode.Demand?))
  {
    hide L.Lists, Page.Size, Placed, L.Keep, ShadowsAfterAdmission;
  }

  /** Shadows of the id that are not of this very page go when the page arrives, all of the id when it
      replaces a stale copy, and none when it was there; those that go unseen count as censored. */
  lemma AdmissionShadowLaw(t: Tiers, p: Page, mode: Mode)
    requires WellFormed(t.residents) && GhostPast(t, p.id)
    ensures var s := BeforeSweep(t, p, mode).shadows;
            && (forall k :: k in s.entries ==> k in t.shadows.entries && s.entries[k] == t.shadows.entries[k])
            && (forall k :: k in t.shadows.entries ==>
                  (k in s.entries <==>
                     if p.id !in t.residents.entries then k.tuple.id != p.id || k.tuple == p.Tuple()
                     else if Arrives(t, p, mode) then k.tuple.id != p.id
                     else true))
            && s.useful == t.shadows.useful && s.unused == t.shadows.unused && s.observations == t.shadows.observations
            && s.censored == t.shadows.censored + |Pending(t.shadows.entries) - s.entries.Keys|
  {
    hide L.Lists, Page.Size, Placed, L.Keep, GhostsBeforeSweep;
    var keep := if p.id !in t.residents.entries then KeysNotMismatching(t.shadows, p)
                else if Arrives(t, p, mode) then KeysOfOthers(t.shadows, p.id) else t.shadows.entries.Keys;
    var s := BeforeSweep(t, p, mode).shadows;
    assert s.entries.Keys == keep;
    assert keep == t.shadows.entries.Keys ==> Pending(t.shadows.entries) - keep == {};
  }

  // ---- a real use ----

  /** A use counts on the entry and the page, sets the reference bit, and makes a cold page hot exactly
      at its second real use; a pinned or hot page stays so, and no other resident moves. */
  lemma UseLaw(t: Tiers, id: string, policy: Policy)
    requires WellFormed(t.residents) && id in t.residents.entries
    ensures var t' := Used(t, id, policy);
            && t'.residents.order == t.residents.order && t'.residents.hand == t.residents.hand
            && t'.residents.entries.Keys == t.residents.entries.Keys
            && (forall j :: j in t.residents.entries && j != id ==> t'.residents.entries[j] == t.residents.entries[j])
            && t'.ghosts == t.ghosts && t'.tick == t.tick && t'.useTick == t.useTick + 1 && t'.refaultDistance == t.refaultDistance
            && var e, e' := t.residents.entries[id], t'.residents.entries[id];
               && e'.page == e.page.(accessCount := e.page.accessCount + 1) && e'.materialized == e.materialized
               && e'.ref && e'.realUses == e.realUses + 1
               && (e'.state == C.Pinned <==> e.state == C.Pinned)
               && (e'.state == C.Hot <==> e.state == C.Hot || (e.state == C.Cold && e.realUses >= 1))
               && t'.age == t.age + (if e.state == C.Cold && e.realUses >= 1 then 1 else 0)
  {
    hide L.Lists, MarkedUseful, Expired;
  }

  /** What a real use or demand of a page does to the shadows: those past the horizon close as unused,
      the waiting ones of this very page turn useful, and no other changes. */
  lemma DemandShadowLaw(t: Tiers, p: Page, policy: Policy)
    ensures var t' := Demanded(t, p, policy); var now := t.useTick + 1;
            && t'.useTick == now && t' == t.(useTick := now, shadows := t'.shadows)
            && (forall k :: k in t'.shadows.entries <==>
                  k in t.shadows.entries && now - t.shadows.entries[k].observedAt <= policy.shadowUseHorizon)
            && (forall k :: k in t'.shadows.entries ==>
                  t'.shadows.entries[k] == t.shadows.entries[k].(useful := t.shadows.entries[k].useful || k.tuple == p.Tuple()))
            && t'.shadows.observations == t.shadows.observations && t'.shadows.censored == t.shadows.censored
            && t'.shadows.unused == t.shadows.unused + |Pending(t.shadows.entries) - t'.shadows.entries.Keys|
  {
    hide L.Keep;
    var young := YoungKeys(t.shadows, t.useTick + 1, policy);
    var x := Expired(t.shadows, t.useTick + 1, policy);
    assert x.entries.Keys == young;
    var t' := Demanded(t, p, policy);
    assert t'.shadows.entries.Keys == young;
  }

  // ---- removals ----

  /** After a shootdown nothing of the id is left in any tier, and nothing else is gone. */
  lemma ShootdownLaw(t: Tiers, id: string)
    requires WellFormed(t.residents) && L.Lists(t.ghosts.order, t.ghosts.entries.Keys)
    ensures var t' := ShotDown(t, id);
            && t'.residents.entries == t.residents.entries - {id} && t'.ghosts.entries == t.ghosts.entries - {id}
            && (forall k :: k in t'.shadows.entries <==> k in t.shadows.entries && k.tuple.id != id)
            && (forall k :: k in t'.shadows.entries ==> t'.shadows.entries[k] == t.shadows.entries[k])
            && t'.shadows.censored == t.shadows.censored + |Pending(t.shadows.entries) - t'.shadows.entries.Keys|
            && t'.shadows.unused == t.shadows.unused && t'.shadows.useful == t.shadows.useful
            && t'.tick == t.tick && t'.useTick == t.useTick && t'.age == t.age && t'.refaultDistance == t.refaultDistance
  {
    hide L.Lists, L.Keep, Removed, GhostDropped;
    var keep, s' := KeysOfOthers(t.shadows, id), ShotDown(t, id).shadows;
    assert s'.entries.Keys == keep;
    RemovedEntries(t.residents, id);
    DroppedEntries(t.ghosts, id);
  }

  lemma RemovedEntries(r: Residents, id: string)
    requires WellFormed(r)
    ensures Removed(r, id).entries == r.entries - {id}
  {
  }

  lemma DroppedEntries(g: Ghosts, id: string)
    ensures GhostDropped(g, id).entries == g.entries - {id}
  {
  }

  /** An authoritative demand first clears exactly what carries its id and another identity. */
  lemma AuthorityLaw(t: Tiers, p: Page)
    requires WellFormed(t.residents) && L.Lists(t.ghosts.order, t.ghosts.entries.Keys)
    ensures var t' := AuthorityCleared(t, p);
            && (forall id :: id in t'.residents.entries <==>
                  id in t.residents.entries && (id == p.id ==> t.residents.entries[id].page.Tuple() == p.Tuple()))
            && (forall id :: id in t'.residents.entries ==> t'.residents.entries[id] == t.residents.entries[id])
            && (forall id :: id in t'.ghosts.entries <==>
                  id in t.ghosts.entries && (id == p.id ==> t.ghosts.entries[id].page.Tuple() == p.Tuple()))
            && (forall id :: id in t'.ghosts.entries ==> t'.ghosts.entries[id] == t.ghosts.entries[id])
            && (forall k :: k in t'.shadows.entries <==>
                  k in t.shadows.entries && (k.tuple.id == p.id ==> k.tuple == p.Tuple()))
            && (forall k :: k in t'.shadows.entries ==> t'.shadows.entries[k] == t.shadows.entries[k])
            && t'.shadows.censored == t.shadows.censored + |Pending(t.shadows.entries) - t'.shadows.entries.Keys|
            && t'.shadows.useful == t.shadows.useful && t'.shadows.unused == t.shadows.unused
  {
    hide L.Lists, L.Keep, L.RemoveIndex;
    assert AuthorityCleared(t, p).shadows.entries.Keys == KeysNotMismatching(t.shadows, p);
  }

  // ---- reconciling ----

  /** One verdict on a resident of exactly that identity: invalidated, it and every trace of its id go;
      otherwise it takes the verdict's scope and staleness, loses its body exactly when it was stale and
      no longer is, and goes without a ghost if it would not fit.  Any other verdict changes nothing. */
  lemma ReconcileLaw(t: Tiers, tuple: PageTuple, c: Coherence, policy: Policy)
    requires WellFormed(t.residents)
    ensures var t' := ReconciledOne(t, tuple, c, policy); var id := tuple.id;
            if id !in t.residents.entries || t.residents.entries[id].page.Tuple() != tuple then t' == t
            else if c.invalidated then t' == ShotDown(t, id)
            else
              var e := t.residents.entries[id];
              var back := e.page.stale && !c.stale;
              && (forall j :: j in t.residents.entries && j != id ==> j in t'.residents.entries && t'.residents.entries[j] == t.residents.entries[j])
              && t'.shadows == t.shadows && t'.tick == t.tick && t'.useTick == t.useTick && t'.age == t.age
              && (forall j :: j != id ==> (j in t'.ghosts.entries <==> j in t.ghosts.entries))
              && (if id in t'.residents.entries then
                    var e' := t'.residents.entries[id];
                    && e'.state == e.state && e'.ref == e.ref && e'.realUses == e.realUses
                    && e'.page == e.page.(
                         stale := c.stale, invalidated := false, staleRevision := if back then 0 else c.staleRevision,
                         branch := c.branch, commit := c.commit, paths := c.paths, scopeEpoch := c.scopeEpoch,
                         body := if back then "" else e.page.body, summary := if back then "" else e.page.summary,
                         refs := if back then [] else e.page.refs)
                    && e'.materialized == (e.materialized && !back)
                    && (if back then id !in t'.ghosts.entries else t'.ghosts == t.ghosts)
                  else id !in t'.ghosts.entries)
  {
    hide L.Lists, L.Keep, L.RemoveIndex, RefreshFits, Total;
  }

  // ---- pins, accesses, revalidation ----

  /** Pinning, unpinning and counting an access change the state, the reference bit and the access count
      of one entry and nothing of its page's text. */
  lemma EntryStepLaw(e: Entry)
    ensures PinnedEntry(e) == Entry(e.page, C.Pinned, true, e.realUses, e.materialized)
    ensures UnpinnedEntry(e) == Entry(e.page, C.Hot, true, e.realUses, e.materialized)
    ensures TouchedEntry(e) == Entry(e.page.(accessCount := e.page.accessCount + 1), e.state, true, e.realUses, e.materialized)
    ensures C.Need(SlotOf(PinnedEntry(e))) == 0 && C.Need(SlotOf(UnpinnedEntry(e))) == 3
    ensures var c := BodyCleared(e);
            && c.page.body == "" && c.page.summary == "" && c.page.refs == [] && !c.materialized
            && !c.page.stale && !c.page.invalidated && c.page.staleRevision == 0 && c.page.Tuple() == e.page.Tuple()
            && c.state == e.state && c.ref == e.ref && c.realUses == e.realUses
  {
  }

  // ---- ghosts ----

  /** Once the ghosts are on and can hold the page, an eviction is remembered as the newest ghost, with
      the clocks of that moment, and forgets only from the oldest end. */
  lemma RememberLaw(g: Ghosts, page: Page, tick: nat, useTick: nat, age: nat, policy: Policy)
    requires GhostsWellFormed(g) && policy.Valid() && page.id != "" && page.id !in g.entries
    requires policy.maxGhostEntries > 0 && policy.maxGhostBytes > 0 && page.Metadata().Size() <= policy.maxGhostBytes
    ensures var h := GhostAdded(g, page, tick, useTick, age, policy);
            && page.id in h.entries && h.entries[page.id] == Ghost(page.(body := "", summary := "", refs := []), tick, useTick, age)
            && (exists n :: 0 <= n <= |g.order| && h.order == g.order[n..] + [page.id])
            && (forall id :: id in h.entries && id != page.id ==> id in g.entries && h.entries[id] == g.entries[id])
  {
    hide Page.Size, GhostsWellFormed, GhostsTrimmed, GhostAdded, L.SuffixFits;
    GhostAddedShape(g, page, tick, useTick, age, policy);
    var put := GhostPut(g, Ghost(page.Metadata(), tick, useTick, age));
    var n := NewestStays(put, page.id, policy);
    assert put.order[n..] == g.order[n..] + [page.id];
    var h := GhostAdded(g, page, tick, useTick, age, policy);
    assert h.order[|h.order| - 1] == page.id;
    PutIsListed(h);
    KeptAsPut(put, policy);
  }

  /** Trimming keeps the newest ghost if it fits by itself. */
  lemma NewestStays(g: Ghosts, id: string, policy: Policy) returns (n: nat)
    requires GhostsWellFormed(g) && policy.Valid() && g.order != [] && g.order[|g.order| - 1] == id && id in g.entries
    requires policy.maxGhostEntries > 0 && g.entries[id].page.Size() <= policy.maxGhostBytes
    ensures n < |g.order| && GhostsTrimmed(g, policy).order == g.order[n..] && GhostsWellFormed(GhostsTrimmed(g, policy))
  {
    hide Page.Size, GhostsWellFormed, GhostsTrimmed, L.SuffixFits;
    var sizes := GhostSizes(g.entries);
    PutIsListed(g);
    GhostsTrimmedFit(g, policy);
    n := L.Overflow(g.order, sizes, policy.maxGhostEntries, policy.maxGhostBytes);
    assert g.order[|g.order| - 1..] == [id];
    NewestFits(g, id, policy);
  }

  lemma PutIsListed(g: Ghosts)
    requires GhostsWellFormed(g)
    ensures forall id :: id in g.order <==> id in g.entries
  {
  }

  lemma KeptAsPut(g: Ghosts, policy: Policy)
    requires GhostsWellFormed(g)
    ensures forall id :: id in GhostsTrimmed(g, policy).entries ==> id in g.entries && GhostsTrimmed(g, policy).entries[id] == g.entries[id]
  {
  }

  lemma NewestFits(g: Ghosts, id: string, policy: Policy)
    requires GhostsWellFormed(g) && id in g.entries
    requires policy.maxGhostEntries > 0 && g.entries[id].page.Size() <= policy.maxGhostBytes
    ensures L.SuffixFits([id], GhostSizes(g.entries), policy.maxGhostEntries, policy.maxGhostBytes)
  {
    hide Page.Size;
    assert [id][1..] == [];
    assert L.Sum([id], GhostSizes(g.entries)) == g.entries[id].page.Size() + L.Sum([], GhostSizes(g.entries));
  }

  // ---- observations ----

  /** An observation of a page not yet observed so is the newest shadow, waiting, with its ordinal and the
      use clock of now; it forgets only from the oldest end. */
  ghost predicate ObservedAnew(s: Shadows, h: Shadows, page: Page, ordinal: int, useTick: nat) {
    var k := ShadowKey(page.Tuple(), page.embeddingSpace);
    && k in h.entries && h.entries[k] == Shadow(page, ordinal, useTick, false)
    && h.order != [] && h.order[|h.order| - 1] == k && h.observations == s.observations + 1
    && h.useful == s.useful
    && (forall j :: j in h.entries && j != k ==> j in s.entries && h.entries[j] == s.entries[j] && (j.tuple.id == page.id ==> j.tuple == page.Tuple()))
  }

  /** An observation repeated takes the new page and nothing else: not a new place, horizon or ordinal. */
  ghost predicate ObservedAgain(s: Shadows, h: Shadows, page: Page) {
    var k := ShadowKey(page.Tuple(), page.embeddingSpace);
    && k in s.entries && k in h.entries
    && h.entries[k] == Shadow(page, s.entries[k].ordinal, s.entries[k].observedAt, s.entries[k].useful)
    && OnlyContradictionsGone(s, h, page)
  }

  /** Exactly the shadows of the id and another identity are gone, those still waiting as censored. */
  ghost predicate OnlyContradictionsGone(s: Shadows, h: Shadows, page: Page) {
    && (forall j :: j in h.entries <==> j in s.entries && (j.tuple.id == page.id ==> j.tuple == page.Tuple()))
    && (forall j :: j in h.entries && j != ShadowKey(page.Tuple(), page.embeddingSpace) ==> h.entries[j] == s.entries[j])
    && h.observations == s.observations && h.useful == s.useful && h.unused == s.unused
    && h.censored == s.censored + |Pending(s.entries) - h.entries.Keys|
  }

  lemma ObserveLaw(s: Shadows, page: Page, ordinal: int, useTick: nat, policy: Policy)
    requires ShadowsWellFormed(s) && page.Bodyless() && policy.Valid()
    ensures var (h, ok) := Observed(s, page, ordinal, useTick, policy); var k := ShadowKey(page.Tuple(), page.embeddingSpace);
            if policy.maxShadowEntries == 0 || policy.maxShadowBytes == 0 || policy.shadowUseHorizon == 0 then ok && h == s
            else if page.Size() > policy.maxShadowBytes then !ok && h == s
            else if k !in s.entries then ok && ObservedAnew(s, h, page, ordinal, useTick)
            else if ok then ObservedAgain(s, h, page)
            else OnlyContradictionsGone(s, h, page) && k in h.entries && h.entries[k] == s.entries[k]
  {
    hide Page.Size, ShadowsWellFormed, ShadowBytes, ShadowsTrimmed, ShadowAppended, Retired, KeysNotMismatching, ObservedAnew, Pending;
    var k := ShadowKey(page.Tuple(), page.embeddingSpace);
    var s1 := Retired(s, KeysNotMismatching(s, page), AsCensored);
    RetiredWellFormed(s, KeysNotMismatching(s, page), AsCensored);
    ContradictionsGo(s, page);
    if k !in s.entries && page.Size() <= policy.maxShadowBytes && !ShadowsOff(policy) { AppendedIsNewest(s, page, ordinal, useTick, policy); }
    if k in s.entries { RefreshedCounts(s1, k, page); }
  }

  lemma ContradictionsGo(s: Shadows, page: Page)
    ensures var s1 := Retired(s, KeysNotMismatching(s, page), AsCensored);
            && (forall j :: j in s1.entries <==> j in s.entries && (j.tuple.id == page.id ==> j.tuple == page.Tuple()))
            && (forall j :: j in s1.entries ==> s1.entries[j] == s.entries[j])
            && s1.observations == s.observations && s1.useful == s.useful && s1.unused == s.unused
            && s1.censored == s.censored + |Pending(s.entries) - s1.entries.Keys|
  {
    hide L.Keep;
    var s1 := Retired(s, KeysNotMismatching(s, page), AsCensored);
    assert s1.entries.Keys == KeysNotMismatching(s, page);
  }

  lemma RefreshedCounts(s: Shadows, k: ShadowKey, page: Page)
    requires k in s.entries
    ensures ShadowRefreshed(s, k, page).entries.Keys == s.entries.Keys
  {
  }

  lemma AppendedIsNewest(s: Shadows, page: Page, ordinal: int, useTick: nat, policy: Policy)
    requires ShadowsWellFormed(s) && page.Bodyless() && policy.Valid() && page.Size() <= policy.maxShadowBytes && !ShadowsOff(policy)
    requires ShadowKey(page.Tuple(), page.embeddingSpace) !in s.entries
    ensures ObservedAnew(s, Observed(s, page, ordinal, useTick, policy).0, page, ordinal, useTick)
    ensures Observed(s, page, ordinal, useTick, policy).1
  {
    hide Page.Size, Page.Bodyless, ShadowsWellFormed, ShadowsTrimmed, Retired, KeysNotMismatching, ShadowAppended, Observed, ObservedAnew, Pending;
    var k := ShadowKey(page.Tuple(), page.embeddingSpace);
    var s1 := Retired(s, KeysNotMismatching(s, page), AsCensored);
    ContradictionsGo(s, page);
    AppendShape(s, page, ordinal, useTick, policy);
    var a := ShadowAppended(s1, k, Shadow(page, ordinal, useTick, false));
    AppendedEntries(s1, k, Shadow(page, ordinal, useTick, false));
    var n := NewestShadowStays(a, k, policy);
    var h := ShadowsTrimmed(a, policy);
    assert h.order[|h.order| - 1] == a.order[|a.order| - 1] == k;
    ShadowsListed(h);
    TrimmedCounts(a, policy);
    NewestIsAnew(s, s1, a, h, page, ordinal, useTick);
  }

  lemma NewestIsAnew(s: Shadows, s1: Shadows, a: Shadows, h: Shadows, page: Page, ordinal: int, useTick: nat)
    requires forall j :: j in s1.entries ==> j in s.entries && (j.tuple.id == page.id ==> j.tuple == page.Tuple()) && s1.entries[j] == s.entries[j]
    requires s1.observations == s.observations && s1.useful == s.useful
    requires var k := ShadowKey(page.Tuple(), page.embeddingSpace);
             && a.entries == s1.entries[k := Shadow(page, ordinal, useTick, false)]
             && a.observations == s1.observations + 1 && a.useful == s1.useful
             && h.order != [] && h.order[|h.order| - 1] == k && k in h.entries
    requires forall j :: j in h.entries ==> j in a.entries && h.entries[j] == a.entries[j]
    requires h.observations == a.observations && h.useful == a.useful
    ensures ObservedAnew(s, h, page, ordinal, useTick)
  {
    hide Page.Tuple;
  }

  lemma AppendedEntries(s: Shadows, k: ShadowKey, shadow: Shadow)
    ensures var a := ShadowAppended(s, k, shadow);
            a.entries == s.entries[k := shadow] && a.order == s.order + [k] && a.observations == s.observations + 1 && a.useful == s.useful
  {
  }

  lemma AppendShape(s: Shadows, page: Page, ordinal: int, useTick: nat, policy: Policy)
    requires ShadowsWellFormed(s) && page.Bodyless() && page.Size() <= policy.maxShadowBytes && !ShadowsOff(policy)
    requires ShadowKey(page.Tuple(), page.embeddingSpace) !in s.entries
    ensures var k := ShadowKey(page.Tuple(), page.embeddingSpace);
            var a := ShadowAppended(Retired(s, KeysNotMismatching(s, page), AsCensored), k, Shadow(page, ordinal, useTick, false));
            ShadowsWellFormed(a) && Observed(s, page, ordinal, useTick, policy) == (ShadowsTrimmed(a, policy), true)
  {
    hide Page.Size, ShadowsWellFormed, ShadowBytes, ShadowsTrimmed, Retired, KeysNotMismatching, ShadowAppended;
    var k := ShadowKey(page.Tuple(), page.embeddingSpace);
    var s1 := Retired(s, KeysNotMismatching(s, page), AsCensored);
    RetiredWellFormed(s, KeysNotMismatching(s, page), AsCensored);
    ContradictionsGo(s, page);
    ShadowAppendedWellFormed(s1, k, Shadow(page, ordinal, useTick, false));
  }

  lemma TrimmedCounts(s: Shadows, policy: Policy)
    requires ShadowsWellFormed(s)
    ensures ShadowsTrimmed(s, policy).observations == s.observations && ShadowsTrimmed(s, policy).useful == s.useful
  {
  }

  lemma ShadowsListed(s: Shadows)
    requires ShadowsWellFormed(s)
    ensures forall k :: k in s.order <==> k in s.entries
  {
  }

  lemma NewestShadowStays(s: Shadows, k: ShadowKey, policy: Policy) returns (n: nat)
    requires ShadowsWellFormed(s) && policy.Valid() && s.order != [] && s.order[|s.order| - 1] == k && k in s.entries
    requires policy.maxShadowEntries > 0 && s.entries[k].page.Size() <= policy.maxShadowBytes
    ensures n < |s.order| && ShadowsTrimmed(s, policy).order == s.order[n..] && ShadowsWellFormed(ShadowsTrimmed(s, policy))
    ensures forall j :: j in ShadowsTrimmed(s, policy).entries ==> j in s.entries && ShadowsTrimmed(s, policy).entries[j] == s.entries[j]
  {
    hide Page.Size, ShadowsWellFormed, ShadowsTrimmed, L.SuffixFits;
    ShadowsListed(s);
    ShadowsTrimmedFit(s, policy);
    n := L.Overflow(s.order, ShadowSizes(s.entries), policy.maxShadowEntries, policy.maxShadowBytes);
    assert s.order[|s.order| - 1..] == [k];
    NewestShadowFits(s, k, policy);
  }

  lemma NewestShadowFits(s: Shadows, k: ShadowKey, policy: Policy)
    requires k in s.entries && policy.maxShadowEntries > 0 && s.entries[k].page.Size() <= policy.maxShadowBytes
    ensures L.SuffixFits([k], ShadowSizes(s.entries), policy.maxShadowEntries, policy.maxShadowBytes)
  {
    hide Page.Size;
    assert [k][1..] == [];
    assert L.Sum([k], ShadowSizes(s.entries)) == s.entries[k].page.Size() + L.Sum([], ShadowSizes(s.entries));
  }

  // ---- whole tiers ----

  /** Purging ghosts and censoring shadows empty the one estimator, settle its account, and touch nothing
      else. */
  lemma ClearingLaw(t: Tiers)
    ensures var g := GhostsPurged(t); g.ghosts.entries == map[] && g.ghosts.order == [] && g == t.(ghosts := g.ghosts)
    ensures var c := ShadowsCensored(t);
            && c.shadows.entries == map[] && c.shadows.censored == t.shadows.censored + |Pending(t.shadows.entries)|
            && c.shadows.unused == t.shadows.unused && c.shadows.useful == t.shadows.useful
            && c.shadows.observations == t.shadows.observations && c == t.(shadows := c.shadows)
  {
    hide L.Keep;
    assert Pending(t.shadows.entries) - {} == Pending(t.shadows.entries);
  }

  // ---- which resident is the caller's page ----

  predicate Anonymous(p: Page) {
    p.version == 0 && p.session == "" && p.digest == "" && p.compiler == "" && p.scopeEpoch == 0
  }

  predicate SameContents(a: Page, b: Page) {
    && a.body == b.body && a.summary == b.summary && a.refs == b.refs && a.paths == b.paths
    && a.scope == b.scope && a.branch == b.branch && a.commit == b.commit
  }

  /** A resident is taken for the caller's page exactly if their contents are the same and, unless the
      caller names no identity of its own, their identities are too. */
  lemma CurrentLaw(resident: Page, expected: Page)
    ensures CurrentMatches(resident, expected) <==>
              && SameContents(resident, expected)
              && (Anonymous(expected)
                  || (resident.id == expected.id && resident.version == expected.version && resident.session == expected.session
                      && resident.digest == expected.digest && resident.compiler == expected.compiler
                      && resident.scopeEpoch == expected.scopeEpoch))
  {
  }
}
