/** The two bodyless estimators beside the resident tier: ghosts remember what was evicted, shadows
    remember which semantic candidates were seen but not selected. */
module Estimators {
  import L = Listing
  import opened Pages
  import opened Residents

  // ---- ghosts ----

  datatype Ghost = Ghost(page: Page, evictionTick: nat, evictionUseTick: nat, evictionAge: nat)

  datatype Ghosts = Ghosts(entries: map<string, Ghost>, order: seq<string>)

  function GhostSizes(entries: map<string, Ghost>): map<string, nat> {
    map id | id in entries :: entries[id].page.Size()
  }

  ghost predicate GhostsWellFormed(g: Ghosts) {
    && L.Lists(g.order, g.entries.Keys)
    && forall id :: id in g.entries ==> g.entries[id].page.id == id && g.entries[id].page.Bodyless()
  }

  function GhostBytes(g: Ghosts): nat
    requires GhostsWellFormed(g)
  {
    L.Sum(g.order, GhostSizes(g.entries))
  }

  /** Ghosts are listed, bodyless, within their caps, and none is younger than the eviction clock. */
  ghost predicate GhostsValid(g: Ghosts, policy: Policy, age: nat) {
    && GhostsWellFormed(g)
    && |g.order| <= policy.maxGhostEntries && GhostBytes(g) <= policy.maxGhostBytes
    && forall id :: id in g.entries ==> g.entries[id].evictionAge <= age
  }

  function GhostsKept(g: Ghosts, keep: set<string>): Ghosts {
    Ghosts(map id | id in g.entries && id in keep :: g.entries[id], L.Keep(g.order, keep))
  }

  function GhostDropped(g: Ghosts, id: string): Ghosts {
    GhostsKept(g, g.entries.Keys - {id})
  }

  /** Remember a page at its place in the queue, or at the end when it has none. */
  function GhostPut(g: Ghosts, ghst: Ghost): Ghosts {
    var id := ghst.page.id;
    Ghosts(g.entries[id := ghst], if id in g.entries then g.order else g.order + [id])
  }

  /** Forget the fewest oldest ghosts that bring the rest within the caps. */
  function GhostsTrimmed(g: Ghosts, policy: Policy): Ghosts
    requires GhostsWellFormed(g)
  {
    var n := L.Overflow(g.order, GhostSizes(g.entries), policy.maxGhostEntries, policy.maxGhostBytes);
    GhostsKept(g, L.Members(g.order[n..]))
  }

  /** What an eviction leaves behind. */
  function GhostAdded(g: Ghosts, page: Page, tick: nat, useTick: nat, age: nat, policy: Policy): Ghosts
    requires GhostsWellFormed(g)
  {
    var cp := page.Metadata();
    if policy.maxGhostEntries == 0 || policy.maxGhostBytes == 0 || cp.id == "" || cp.Size() > policy.maxGhostBytes then g
    else
      GhostPutWellFormed(g, Ghost(cp, tick, useTick, age));
      GhostsTrimmed(GhostPut(g, Ghost(cp, tick, useTick, age)), policy)
  }

  lemma GhostAddedShape(g: Ghosts, page: Page, tick: nat, useTick: nat, age: nat, policy: Policy)
    requires GhostsWellFormed(g)
    ensures var cp := page.Metadata(); var put := GhostPut(g, Ghost(cp, tick, useTick, age));
            && cp.id == page.id && cp.Bodyless() && GhostsWellFormed(put)
            && GhostAdded(g, page, tick, useTick, age, policy)
               == if policy.maxGhostEntries == 0 || policy.maxGhostBytes == 0 || page.id == "" || cp.Size() > policy.maxGhostBytes
                  then g else GhostsTrimmed(put, policy)
  {
    hide Page.Size, GhostsWellFormed, GhostPut, GhostsTrimmed;
    GhostPutWellFormed(g, Ghost(page.Metadata(), tick, useTick, age));
  }

  lemma GhostsKeptWellFormed(g: Ghosts, keep: set<string>)
    requires GhostsWellFormed(g)
    ensures GhostsWellFormed(GhostsKept(g, keep))
    ensures GhostsKept(g, keep).entries.Keys == g.entries.Keys * keep
    ensures GhostBytes(GhostsKept(g, keep)) <= GhostBytes(g)
    ensures |GhostsKept(g, keep).order| <= |g.order|
  {
    var g' := GhostsKept(g, keep);
    assert g'.entries.Keys == g.entries.Keys * keep;
    L.KeepLists(g.order, g.entries.Keys, keep);
    L.SumAgrees(g'.order, GhostSizes(g'.entries), GhostSizes(g.entries));
    L.SumKeepMonotone(g.order, keep, g.entries.Keys + keep, GhostSizes(g.entries));
    L.KeepAll(g.order, g.entries.Keys + keep);
  }

  lemma GhostDroppedBytes(g: Ghosts, id: string)
    requires GhostsWellFormed(g) && id in g.entries
    ensures GhostsWellFormed(GhostDropped(g, id))
    ensures GhostDropped(g, id).entries == g.entries - {id}
    ensures GhostDropped(g, id).order == L.Without(g.order, id)
    ensures GhostBytes(GhostDropped(g, id)) == GhostBytes(g) - g.entries[id].page.Size()
  {
    GhostsKeptWellFormed(g, g.entries.Keys - {id});
    L.WithoutIsKeep(g.order, g.entries.Keys, id);
    L.SumWithout(g.order, g.entries.Keys, id, GhostSizes(g.entries), GhostSizes(GhostDropped(g, id).entries));
  }

  lemma GhostListed(g: Ghosts, id: string)
    requires GhostsWellFormed(g) && id in g.entries
    ensures id in g.order
  {
  }

  /** The ghosts kept by a suffix are listed by it and weigh what it weighs. */
  lemma GhostSuffix(g: Ghosts, n: nat)
    requires GhostsWellFormed(g) && n <= |g.order|
    ensures var k := GhostsKept(g, L.Members(g.order[n..]));
            k.order == g.order[n..] && GhostsWellFormed(k)
            && GhostBytes(k) == L.Sum(g.order[n..], GhostSizes(g.entries))
    ensures L.NoDuplicates(g.order) && forall id :: id in g.order ==> id in g.entries
  {
    var k := GhostsKept(g, L.Members(g.order[n..]));
    L.KeepSuffix(g.order, n);
    GhostsKeptWellFormed(g, L.Members(g.order[n..]));
    L.SumAgrees(k.order, GhostSizes(k.entries), GhostSizes(g.entries));
  }

  lemma GhostDroppedAbsent(g: Ghosts, id: string)
    requires GhostsWellFormed(g) && id !in g.entries
    ensures GhostDropped(g, id) == g
  {
    L.KeepAll(g.order, g.entries.Keys - {id});
    assert g.entries.Keys - {id} == g.entries.Keys;
  }

  lemma GhostsKeptAll(g: Ghosts)
    requires GhostsWellFormed(g)
    ensures GhostsKept(g, L.Members(g.order[0..])) == g
  {
    assert g.order[0..] == g.order;
    L.KeepAll(g.order, L.Members(g.order));
  }

  /** Dropping one of the kept ghosts is keeping the others. */
  lemma GhostsKeptThenDropped(g: Ghosts, keep: set<string>, id: string)
    requires L.Lists(g.order, g.entries.Keys)
    ensures GhostDropped(GhostsKept(g, keep), id) == GhostsKept(g, keep - {id})
  {
    var k := GhostsKept(g, keep);
    L.KeepTwice(g.order, keep, k.entries.Keys - {id});
    assert k.entries.Keys == g.entries.Keys * keep;
    GhostsKeptOrder(g, keep, id);
  }

  lemma GhostsKeptOrder(g: Ghosts, keep: set<string>, id: string)
    requires L.Lists(g.order, g.entries.Keys)
    ensures L.Keep(g.order, keep * (g.entries.Keys * keep - {id})) == L.Keep(g.order, keep - {id})
  {
    L.KeepSame(g.order, keep * (g.entries.Keys * keep - {id}), keep - {id});
  }

  lemma GhostPutWellFormed(g: Ghosts, ghst: Ghost)
    requires GhostsWellFormed(g) && ghst.page.Bodyless()
    ensures GhostsWellFormed(GhostPut(g, ghst))
  {
    var id := ghst.page.id;
    assert GhostPut(g, ghst).entries.Keys == g.entries.Keys + {id};
    if id in g.entries {
      assert g.entries.Keys + {id} == g.entries.Keys;
    } else {
      L.AppendLists(g.order, g.entries.Keys, id);
    }
  }

  lemma GhostPutBytes(g: Ghosts, ghst: Ghost)
    requires GhostsWellFormed(g) && GhostsWellFormed(GhostPut(g, ghst))
    ensures GhostBytes(GhostPut(g, ghst))
         == GhostBytes(g) + ghst.page.Size() - (if ghst.page.id in g.entries then g.entries[ghst.page.id].page.Size() else 0)
  {
    var id := ghst.page.id;
    var w, w' := GhostSizes(g.entries), GhostSizes(GhostPut(g, ghst).entries);
    if id in g.entries {
      L.SumUpdate(g.order, g.entries.Keys, id, w, w');
    } else {
      L.SumExtend(g.order, g.entries.Keys, id, w, w');
    }
  }

  lemma GhostsTrimmedFit(g: Ghosts, policy: Policy)
    requires GhostsWellFormed(g) && policy.Valid()
    ensures var n := L.Overflow(g.order, GhostSizes(g.entries), policy.maxGhostEntries, policy.maxGhostBytes);
            && GhostsTrimmed(g, policy).order == g.order[n..]
            && GhostsTrimmed(g, policy).entries.Keys <= g.entries.Keys
            && GhostsWellFormed(GhostsTrimmed(g, policy))
            && |g.order[n..]| <= policy.maxGhostEntries && GhostBytes(GhostsTrimmed(g, policy)) <= policy.maxGhostBytes
  {
    var sizes := GhostSizes(g.entries);
    var n := L.Overflow(g.order, sizes, policy.maxGhostEntries, policy.maxGhostBytes);
    var g' := GhostsTrimmed(g, policy);
    L.KeepSuffix(g.order, n);
    GhostsKeptWellFormed(g, L.Members(g.order[n..]));
    L.SumAgrees(g'.order, GhostSizes(g'.entries), sizes);
  }

  lemma GhostAddedValid(g: Ghosts, page: Page, tick: nat, useTick: nat, age: nat, policy: Policy)
    requires GhostsValid(g, policy, age) && policy.Valid()
    ensures GhostsValid(GhostAdded(g, page, tick, useTick, age, policy), policy, age)
  {
    var put := GhostPut(g, Ghost(page.Metadata(), tick, useTick, age));
    GhostPutWellFormed(g, Ghost(page.Metadata(), tick, useTick, age));
    assert forall id :: id in put.entries ==> put.entries[id].evictionAge <= age;
    GhostsTrimmedFit(put, policy);
  }

  // ---- semantic shadows ----

  datatype ShadowKey = ShadowKey(tuple: PageTuple, embeddingSpace: string)

  datatype Shadow = Shadow(page: Page, ordinal: int, observedAt: nat, useful: bool)

  /** Live observations and how the finished ones turned out. */
  datatype Shadows = Shadows(
    entries: map<ShadowKey, Shadow>, order: seq<ShadowKey>,
    observations: nat, useful: nat, unused: nat, censored: nat)

  datatype Outcome = AsUnused | AsCensored

  function ShadowSizes(entries: map<ShadowKey, Shadow>): map<ShadowKey, nat> {
    map k | k in entries :: entries[k].page.Size()
  }

  function Pending(entries: map<ShadowKey, Shadow>): set<ShadowKey> {
    set k | k in entries && !entries[k].useful
  }

  ghost predicate ShadowsWellFormed(s: Shadows) {
    && L.Lists(s.order, s.entries.Keys)
    && forall k :: k in s.entries ==> s.entries[k].page.Tuple() == k.tuple && s.entries[k].page.Bodyless()
  }

  function ShadowBytes(s: Shadows): nat
    requires ShadowsWellFormed(s)
  {
    L.Sum(s.order, ShadowSizes(s.entries))
  }

  /** Every observation is accounted for exactly once. */
  ghost predicate Conserved(s: Shadows) {
    s.observations == s.useful + s.unused + s.censored + |Pending(s.entries)|
  }

  /** No live shadow is older than the horizon, nor from the future. */
  ghost predicate Fresh(s: Shadows, policy: Policy, useTick: nat) {
    forall k :: k in s.entries ==>
      s.entries[k].observedAt <= useTick && useTick - s.entries[k].observedAt <= policy.shadowUseHorizon
  }

  ghost predicate ShadowsValid(s: Shadows, policy: Policy, useTick: nat) {
    && ShadowsWellFormed(s) && Conserved(s) && Fresh(s, policy, useTick)
    && |s.order| <= policy.maxShadowEntries && ShadowBytes(s) <= policy.maxShadowBytes
    && (policy.shadowUseHorizon == 0 ==> s.entries == map[])
  }

  /** Keep some shadows and close the others; those that were still waiting count as the outcome. */
  function Retired(s: Shadows, keep: set<ShadowKey>, outcome: Outcome): Shadows {
    var entries := map k | k in s.entries && k in keep :: s.entries[k];
    var closed := |Pending(s.entries) - keep|;
    Shadows(entries, L.Keep(s.order, keep), s.observations, s.useful,
            s.unused + (if outcome.AsUnused? then closed else 0),
            s.censored + (if outcome.AsCensored? then closed else 0))
  }

  function YoungKeys(s: Shadows, useTick: nat, policy: Policy): set<ShadowKey> {
    set k | k in s.entries && useTick - s.entries[k].observedAt <= policy.shadowUseHorizon
  }

  /** Close every shadow that has outlived its horizon. */
  function Expired(s: Shadows, useTick: nat, policy: Policy): Shadows {
    Retired(s, YoungKeys(s, useTick, policy), AsUnused)
  }

  /** The waiting shadows of exactly this page. */
  function Hits(s: Shadows, page: Page, among: set<ShadowKey>): set<ShadowKey> {
    set k | k in Pending(s.entries) && k in among && k.tuple == page.Tuple()
  }

  function MarkedAmong(s: Shadows, page: Page, among: set<ShadowKey>): Shadows {
    s.(entries := map k | k in s.entries :: if k in Hits(s, page, among) then s.entries[k].(useful := true) else s.entries[k],
       useful := s.useful + |Hits(s, page, among)|)
  }

  /** A demand for exactly this page proves its waiting shadows useful. */
  function MarkedUseful(s: Shadows, page: Page): Shadows {
    MarkedAmong(s, page, s.entries.Keys)
  }

  function KeysOfOthers(s: Shadows, id: string): set<ShadowKey> {
    set k | k in s.entries && k.tuple.id != id
  }

  /** The keys that do not contradict this page: other pages, or this exact instance. */
  function KeysNotMismatching(s: Shadows, page: Page): set<ShadowKey> {
    set k | k in s.entries && (k.tuple.id != page.id || k.tuple == page.Tuple())
  }

  function ShadowsTrimmed(s: Shadows, policy: Policy): Shadows
    requires ShadowsWellFormed(s)
  {
    var n := L.Overflow(s.order, ShadowSizes(s.entries), policy.maxShadowEntries, policy.maxShadowBytes);
    Retired(s, L.Members(s.order[n..]), AsUnused)
  }

  lemma RetiredWellFormed(s: Shadows, keep: set<ShadowKey>, outcome: Outcome)
    requires ShadowsWellFormed(s)
    ensures var s' := Retired(s, keep, outcome);
            ShadowsWellFormed(s') && s'.entries.Keys == s.entries.Keys * keep
            && |s'.order| <= |s.order| && ShadowBytes(s') <= ShadowBytes(s)
  {
    var s' := Retired(s, keep, outcome);
    assert s'.entries.Keys == s.entries.Keys * keep;
    L.KeepLists(s.order, s.entries.Keys, keep);
    L.SumAgrees(s'.order, ShadowSizes(s'.entries), ShadowSizes(s.entries));
    L.SumKeepMonotone(s.order, keep, s.entries.Keys + keep, ShadowSizes(s.entries));
    L.KeepAll(s.order, s.entries.Keys + keep);
  }

  /** Closing shadows conserves observations. */
  lemma RetiredConserves(s: Shadows, keep: set<ShadowKey>, outcome: Outcome)
    requires Conserved(s)
    ensures Conserved(Retired(s, keep, outcome))
  {
    var s' := Retired(s, keep, outcome);
    assert Pending(s'.entries) == Pending(s.entries) * keep;
    assert Pending(s.entries) == (Pending(s.entries) * keep) + (Pending(s.entries) - keep);
  }

  lemma RetiredValid(s: Shadows, keep: set<ShadowKey>, outcome: Outcome, policy: Policy, useTick: nat)
    requires ShadowsValid(s, policy, useTick)
    ensures ShadowsValid(Retired(s, keep, outcome), policy, useTick)
  {
    RetiredWellFormed(s, keep, outcome);
    RetiredConserves(s, keep, outcome);
  }

  /** Closing one shadow, seen from the map, the order and the counters. */
  lemma RetireOne(s: Shadows, k: ShadowKey, outcome: Outcome)
    requires ShadowsWellFormed(s) && k in s.entries
    ensures var s' := Retired(s, s.entries.Keys - {k}, outcome);
            s'.entries == s.entries - {k} && s'.order == L.Without(s.order, k)
  {
    L.WithoutIsKeep(s.order, s.entries.Keys, k);
  }

  /** Closing one of the kept shadows is keeping the others. */
  lemma RetireOneMore(s: Shadows, keep: set<ShadowKey>, k: ShadowKey, outcome: Outcome)
    requires keep <= s.entries.Keys && k in keep
    ensures var r := Retired(s, keep, outcome);
            r.entries.Keys == keep && Retired(r, r.entries.Keys - {k}, outcome) == Retired(s, keep - {k}, outcome)
  {
    var r := Retired(s, keep, outcome);
    assert r.entries.Keys == keep;
    RetireTwice(s, keep, keep - {k}, outcome);
    assert keep * (keep - {k}) == keep - {k};
  }

  lemma RetireNone(s: Shadows, outcome: Outcome)
    requires forall k :: k in s.order ==> k in s.entries
    ensures Retired(s, s.entries.Keys, outcome) == s
  {
    L.KeepAll(s.order, s.entries.Keys);
    assert Pending(s.entries) - s.entries.Keys == {};
    assert Retired(s, s.entries.Keys, outcome).entries == s.entries;
  }

  lemma ShadowListed(s: Shadows, k: ShadowKey)
    requires ShadowsWellFormed(s) && k in s.entries
    ensures k in s.order
  {
  }

  lemma RetireOneCount(s: Shadows, k: ShadowKey)
    requires k in s.entries
    ensures |Pending(s.entries) - (s.entries.Keys - {k})| == if s.entries[k].useful then 0 else 1
  {
    assert Pending(s.entries) - (s.entries.Keys - {k}) == if s.entries[k].useful then {} else {k};
  }

  /** The whole of closing one shadow. */
  lemma RetireOneShape(s: Shadows, k: ShadowKey, outcome: Outcome)
    requires ShadowsWellFormed(s) && k in s.entries
    ensures var n := if s.entries[k].useful then 0 else 1;
            Retired(s, s.entries.Keys - {k}, outcome) == Shadows(
              s.entries - {k}, L.Without(s.order, k), s.observations, s.useful,
              s.unused + (if outcome.AsUnused? then n else 0), s.censored + (if outcome.AsCensored? then n else 0))
  {
    RetireOne(s, k, outcome);
    RetireOneCount(s, k);
    hide Pending, L.Without, L.Keep;
  }

  lemma RetireOneBytes(s: Shadows, k: ShadowKey, outcome: Outcome)
    requires ShadowsWellFormed(s) && k in s.entries
    ensures var s' := Retired(s, s.entries.Keys - {k}, outcome);
            ShadowsWellFormed(s') && ShadowBytes(s') == ShadowBytes(s) - s.entries[k].page.Size()
  {
    var s' := Retired(s, s.entries.Keys - {k}, outcome);
    RetiredWellFormed(s, s.entries.Keys - {k}, outcome);
    L.WithoutIsKeep(s.order, s.entries.Keys, k);
    L.SumWithout(s.order, s.entries.Keys, k, ShadowSizes(s.entries), ShadowSizes(s'.entries));
  }

  lemma CountTwice<T>(all: set<T>, a: set<T>, b: set<T>)
    ensures |all - a * b| == |all - a| + |all * a - b|
  {
    assert all - a * b == (all - a) + (all * a - b);
  }

  lemma PendingKept(s: Shadows, a: set<ShadowKey>, outcome: Outcome)
    ensures Pending(Retired(s, a, outcome).entries) == Pending(s.entries) * a
  {
    hide L.Keep;
  }

  /** Closing in two rounds is closing in one. */
  lemma RetireTwice(s: Shadows, a: set<ShadowKey>, b: set<ShadowKey>, outcome: Outcome)
    ensures Retired(Retired(s, a, outcome), b, outcome).entries == Retired(s, a * b, outcome).entries
    ensures Retired(Retired(s, a, outcome), b, outcome) == Retired(s, a * b, outcome)
  {
    hide L.Keep, Pending;
    L.KeepTwice(s.order, a, b);
    CountTwice(Pending(s.entries), a, b);
    PendingKept(s, a, outcome);
  }

  lemma CountSplit<T>(all: set<T>, some: set<T>)
    requires some <= all
    ensures |all| == |all - some| + |some|
  {
    assert all == (all - some) + some;
  }

  lemma MarkedPending(s: Shadows, page: Page)
    ensures Pending(MarkedUseful(s, page).entries) == Pending(s.entries) - Hits(s, page, s.entries.Keys)
  {
    hide Page.Tuple;
  }

  lemma MarkedUsefulConserves(s: Shadows, page: Page)
    requires Conserved(s)
    ensures Conserved(MarkedUseful(s, page))
  {
    MarkedPending(s, page);
    hide Pending;
    CountSplit(Pending(s.entries), Hits(s, page, s.entries.Keys));
  }

  lemma MarkedUsefulWellFormed(s: Shadows, page: Page, among: set<ShadowKey>)
    requires ShadowsWellFormed(s)
    ensures var s' := MarkedAmong(s, page, among);
            ShadowsWellFormed(s') && s'.entries.Keys == s.entries.Keys && ShadowBytes(s') == ShadowBytes(s)
  {
    hide Page.Size, L.Lists, L.Sum;
    var s' := MarkedAmong(s, page, among);
    assert s'.entries.Keys == s.entries.Keys;
    assert forall k :: k in s.order ==> k in s.entries by { AllOrdered(s); }
    L.SumAgrees(s.order, ShadowSizes(s.entries), ShadowSizes(s'.entries));
  }

  lemma AllOrdered(s: Shadows)
    requires ShadowsWellFormed(s)
    ensures forall k :: k in s.order ==> k in s.entries
  {
  }

  lemma MarkedUsefulValid(s: Shadows, page: Page, policy: Policy, useTick: nat)
    requires ShadowsValid(s, policy, useTick)
    ensures ShadowsValid(MarkedUseful(s, page), policy, useTick)
  {
    hide L.Lists, L.Sum, ShadowsWellFormed, ShadowBytes, Pending, Conserved, Page.Tuple, Page.Size;
    MarkedUsefulConserves(s, page);
    MarkedUsefulWellFormed(s, page, s.entries.Keys);
    if policy.shadowUseHorizon == 0 { assert MarkedUseful(s, page).entries == map[]; }
  }

  /** Turning one more waiting shadow useful. */
  lemma MarkOneMore(s: Shadows, page: Page, among: set<ShadowKey>, k: ShadowKey)
    requires k in s.entries && k !in among
    ensures var m := MarkedAmong(s, page, among);
            MarkedAmong(s, page, among + {k})
            == if k.tuple == page.Tuple() && !m.entries[k].useful
               then m.(entries := m.entries[k := m.entries[k].(useful := true)], useful := m.useful + 1)
               else m
  {
    var m, m' := MarkedAmong(s, page, among), MarkedAmong(s, page, among + {k});
    assert m.entries[k] == s.entries[k];
    if k.tuple == page.Tuple() && !s.entries[k].useful {
      assert Hits(s, page, among + {k}) == Hits(s, page, among) + {k};
      assert m'.entries == m.entries[k := m.entries[k].(useful := true)];
    } else {
      assert Hits(s, page, among + {k}) == Hits(s, page, among);
    }
  }

  /** After a demand no shadow of exactly that page is still waiting. */
  lemma MarkedUsefulSettles(s: Shadows, page: Page, k: ShadowKey)
    requires k in s.entries && k.tuple == page.Tuple()
    ensures MarkedUseful(s, page).entries[k].useful
  {
  }

  lemma ShadowsTrimmedFit(s: Shadows, policy: Policy)
    requires ShadowsWellFormed(s) && policy.Valid()
    ensures var n := L.Overflow(s.order, ShadowSizes(s.entries), policy.maxShadowEntries, policy.maxShadowBytes);
            var s' := ShadowsTrimmed(s, policy);
            && s'.order == s.order[n..] && ShadowsWellFormed(s') && s'.entries.Keys <= s.entries.Keys
            && |s'.order| <= policy.maxShadowEntries && ShadowBytes(s') <= policy.maxShadowBytes
    ensures forall k :: k in ShadowsTrimmed(s, policy).entries ==>
              k in s.entries && ShadowsTrimmed(s, policy).entries[k] == s.entries[k]
  {
    var sizes := ShadowSizes(s.entries);
    var n := L.Overflow(s.order, sizes, policy.maxShadowEntries, policy.maxShadowBytes);
    var s' := ShadowsTrimmed(s, policy);
    L.KeepSuffix(s.order, n);
    RetiredWellFormed(s, L.Members(s.order[n..]), AsUnused);
    L.SumAgrees(s'.order, ShadowSizes(s'.entries), sizes);
  }

  /** A new observation joins the queue. */
  function ShadowAppended(s: Shadows, k: ShadowKey, shadow: Shadow): Shadows {
    s.(entries := s.entries[k := shadow], order := s.order + [k], observations := s.observations + 1)
  }

  function ShadowRefreshed(s: Shadows, k: ShadowKey, page: Page): Shadows
    requires k in s.entries
  {
    s.(entries := s.entries[k := s.entries[k].(page := page)])
  }

  predicate ShadowsOff(policy: Policy) {
    policy.maxShadowEntries == 0 || policy.maxShadowBytes == 0 || policy.shadowUseHorizon == 0
  }

  lemma ShadowAppendedWellFormed(s: Shadows, k: ShadowKey, shadow: Shadow)
    requires ShadowsWellFormed(s) && k !in s.entries && shadow.page.Tuple() == k.tuple && shadow.page.Bodyless()
    ensures ShadowsWellFormed(ShadowAppended(s, k, shadow))
    ensures ShadowBytes(ShadowAppended(s, k, shadow)) == ShadowBytes(s) + shadow.page.Size()
  {
    var s' := ShadowAppended(s, k, shadow);
    assert s'.entries.Keys == s.entries.Keys + {k};
    L.SumExtend(s.order, s.entries.Keys, k, ShadowSizes(s.entries), ShadowSizes(s'.entries));
  }

  lemma ShadowAppendedConserves(s: Shadows, k: ShadowKey, shadow: Shadow)
    requires Conserved(s) && k !in s.entries && !shadow.useful
    ensures Conserved(ShadowAppended(s, k, shadow))
  {
    assert Pending(ShadowAppended(s, k, shadow).entries) == Pending(s.entries) + {k};
  }

  lemma ShadowRefreshedWellFormed(s: Shadows, k: ShadowKey, page: Page)
    requires ShadowsWellFormed(s) && k in s.entries && page.Tuple() == k.tuple && page.Bodyless()
    ensures ShadowsWellFormed(ShadowRefreshed(s, k, page))
    ensures ShadowBytes(ShadowRefreshed(s, k, page)) == ShadowBytes(s) - s.entries[k].page.Size() + page.Size()
  {
    hide Page.Size, Page.Bodyless, Page.Tuple, L.Lists, L.Sum;
    var s' := ShadowRefreshed(s, k, page);
    assert s'.entries.Keys == s.entries.Keys;
    L.SumUpdate(s.order, s.entries.Keys, k, ShadowSizes(s.entries), ShadowSizes(s'.entries));
  }

  lemma ShadowRefreshedConserves(s: Shadows, k: ShadowKey, page: Page)
    requires Conserved(s) && k in s.entries
    ensures Conserved(ShadowRefreshed(s, k, page))
  {
    assert Pending(ShadowRefreshed(s, k, page).entries) == Pending(s.entries);
  }

  /** What one observation of a bodyless page does, and whether it is refused.  Contradicting shadows
      of the same id are censored first, even when the observation is then refused for capacity. */
  function Observed(s: Shadows, page: Page, ordinal: int, useTick: nat, policy: Policy): (Shadows, bool)
    requires ShadowsWellFormed(s) && page.Bodyless()
  {
    if ShadowsOff(policy) then (s, true)
    else if page.Size() > policy.maxShadowBytes then (s, false)
    else
      var s1 := Retired(s, KeysNotMismatching(s, page), AsCensored);
      var k := ShadowKey(page.Tuple(), page.embeddingSpace);
      RetiredWellFormed(s, KeysNotMismatching(s, page), AsCensored);
      if k !in s1.entries then
        ShadowAppendedWellFormed(s1, k, Shadow(page, ordinal, useTick, false));
        (ShadowsTrimmed(ShadowAppended(s1, k, Shadow(page, ordinal, useTick, false)), policy), true)
      else if ShadowBytes(s1) - s1.entries[k].page.Size() + page.Size() > policy.maxShadowBytes then (s1, false)
      else (ShadowRefreshed(s1, k, page), true)
  }

  lemma AppendedThenTrimmedValid(s: Shadows, k: ShadowKey, shadow: Shadow, policy: Policy, useTick: nat)
    requires ShadowsValid(s, policy, useTick) && policy.Valid() && !ShadowsOff(policy)
    requires k !in s.entries && shadow.page.Tuple() == k.tuple && shadow.page.Bodyless()
    requires !shadow.useful && shadow.observedAt == useTick
    ensures ShadowsWellFormed(ShadowAppended(s, k, shadow))
    ensures ShadowsValid(ShadowsTrimmed(ShadowAppended(s, k, shadow), policy), policy, useTick)
  {
    hide Retired, L.Lists, ShadowsWellFormed, ShadowBytes, ShadowsTrimmed, Pending;
    var a := ShadowAppended(s, k, shadow);
    ShadowAppendedWellFormed(s, k, shadow);
    ShadowAppendedConserves(s, k, shadow);
    ShadowsTrimmedFit(a, policy);
    ShadowsTrimmedConserves(a, policy);
    assert Fresh(a, policy, useTick);
  }

  lemma ShadowsTrimmedConserves(s: Shadows, policy: Policy)
    requires ShadowsWellFormed(s) && Conserved(s)
    ensures Conserved(ShadowsTrimmed(s, policy))
  {
    var n := L.Overflow(s.order, ShadowSizes(s.entries), policy.maxShadowEntries, policy.maxShadowBytes);
    RetiredConserves(s, L.Members(s.order[n..]), AsUnused);
  }

  lemma ObservedValid(s: Shadows, page: Page, ordinal: int, useTick: nat, policy: Policy)
    requires ShadowsValid(s, policy, useTick) && policy.Valid() && page.Bodyless()
    ensures ShadowsValid(Observed(s, page, ordinal, useTick, policy).0, policy, useTick)
  {
    hide Retired, L.Lists, L.Sum, ShadowsTrimmed, ShadowBytes;
    var s1 := Retired(s, KeysNotMismatching(s, page), AsCensored);
    var k := ShadowKey(page.Tuple(), page.embeddingSpace);
    RetiredValid(s, KeysNotMismatching(s, page), AsCensored, policy, useTick);
    if !ShadowsOff(policy) {
      if k !in s1.entries {
        AppendedThenTrimmedValid(s1, k, Shadow(page, ordinal, useTick, false), policy, useTick);
      } else {
        ShadowRefreshedWellFormed(s1, k, page);
        ShadowRefreshedConserves(s1, k, page);
      }
    }
  }
}
