/** Losing and regaining memory. */
module RepairLaws {
  import opened Paths
  import opened Snapshots
  import opened Eligibility
  import opened Cascade
  import opened Transitions
  import opened EventLaws

  // What an invalidation takes with it, and when a revalidation brings something back, told from the
  // two snapshots alone.

  // ---- invalidation ----

  /** The bindings an invalidation names: one address, or everything live over a path. */
  ghost predicate Named(s: Snapshot, change: Change, k: Key)
    requires change.MemoryInvalidated?
  {
    && k in s.bindings && s.bindings[k].mark.status != Invalidated
    && if change.kind == PathTarget
       then exists p :: p in s.bindings[k].paths && (PathWithin(p, change.target) || PathWithin(change.target, p))
       else k == Key(change.kind, change.target)
  }

  ghost function NamedIds(s: Snapshot, change: Change): set<string>
    requires change.MemoryInvalidated?
  {
    set k | k in s.bindings && Named(s, change, k) :: k.id
  }

  /** Everything named is invalid, nothing live depends on anything that was lost, and what was lost
      beyond the named hangs from it by a chain of bindings that were live. */
  ghost predicate Purged(s: Snapshot, change: Change, t: Snapshot)
    requires change.MemoryInvalidated?
  {
    && t.bindings.Keys == s.bindings.Keys
    && (forall k :: k in s.bindings ==> t.bindings[k] == s.bindings[k] || WentInvalid(s.bindings[k], t.bindings[k], change.reason))
    && (forall k :: Named(s, change, k) ==> WentInvalid(s.bindings[k], t.bindings[k], change.reason))
    && (forall j, k :: Live(s.bindings, j) && !Live(t.bindings, j) && Live(t.bindings, k) ==> !DependsOn(s.bindings[k], j.id))
    && (forall k :: k in s.bindings && t.bindings[k] != s.bindings[k] && !Named(s, change, k) ==>
          Reached(s.bindings, NamedIds(s, change), k))
  }

  /** Some keys invalidated first, then the cascade from their ids. */
  ghost function Felled(bindings: Bindings, hit: set<Key>, ids: set<string>, reason: Reason): Bindings {
    Cascaded(InvalidatedBindings(bindings, hit, reason), ids, reason)
  }

  lemma FelledEach(bindings: Bindings, hit: set<Key>, ids: set<string>, reason: Reason)
    requires forall k :: k in hit ==> Live(bindings, k)
    ensures var after := Felled(bindings, hit, ids, reason);
            && after.Keys == bindings.Keys
            && (forall k :: k in bindings ==> after[k] == bindings[k] || WentInvalid(bindings[k], after[k], reason))
            && (forall k :: k in hit ==> k in bindings && WentInvalid(bindings[k], after[k], reason))
  {
    hide ReachedSet, WentInvalid, InvalidatedBindings, Live;
    var mid := InvalidatedBindings(bindings, hit, reason);
    forall k | k in ReachedSet(mid, ids) ensures Live(mid, k) { ReachedWereLive(mid, ids, k); }
    InvalidatesEach(bindings, hit, reason);
    InvalidatesEach(mid, ReachedSet(mid, ids), reason);
    forall k | k in bindings
      ensures var after := Felled(bindings, hit, ids, reason);
              after[k] == bindings[k] || WentInvalid(bindings[k], after[k], reason)
    {
      if k in hit && k in ReachedSet(mid, ids) { LostIsNotLive(bindings, mid, reason, k); }
    }
    forall k | k in hit
      ensures k in bindings && WentInvalid(bindings[k], Felled(bindings, hit, ids, reason)[k], reason)
    {
      if k in ReachedSet(mid, ids) { LostIsNotLive(bindings, mid, reason, k); }
    }
  }

  lemma InvalidatesEach(bindings: Bindings, hit: set<Key>, reason: Reason)
    requires forall k :: k in hit ==> Live(bindings, k)
    ensures var after := InvalidatedBindings(bindings, hit, reason);
            && after.Keys == bindings.Keys
            && (forall k :: k in hit ==> k in bindings && WentInvalid(bindings[k], after[k], reason))
            && (forall k :: k in bindings && k !in hit ==> after[k] == bindings[k])
  {
  }

  lemma LostIsNotLive(before: Bindings, after: Bindings, reason: Reason, k: Key)
    requires k in before && k in after && WentInvalid(before[k], after[k], reason)
    ensures !Live(after, k)
  {
  }

  lemma ReachedWereLive(bindings: Bindings, ids: set<string>, k: Key)
    requires k in ReachedSet(bindings, ids)
    ensures Live(bindings, k)
  {
    hide Live;
    ReachedIsLive(bindings, ids, k);
  }

  lemma FelledCloses(bindings: Bindings, hit: set<Key>, ids: set<string>, reason: Reason, j: Key, k: Key)
    requires forall i :: i in hit ==> Live(bindings, i) && i.id in ids
    requires Live(bindings, j) && !Live(Felled(bindings, hit, ids, reason), j) && Live(Felled(bindings, hit, ids, reason), k)
    ensures !DependsOn(bindings[k], j.id)
  {
    hide ReachedSet, DependsOn;
    var mid := InvalidatedBindings(bindings, hit, reason);
    FelledEach(bindings, hit, ids, reason);
    assert j in hit || j in ReachedSet(mid, ids);
    CascadeCloses(mid, ids, reason, k, j.id);
    SameSources(bindings, Felled(bindings, hit, ids, reason), reason, k, j.id);
  }

  lemma SameSources(before: Bindings, after: Bindings, reason: Reason, k: Key, id: string)
    requires k in before && k in after && (after[k] == before[k] || WentInvalid(before[k], after[k], reason))
    ensures DependsOn(after[k], id) == DependsOn(before[k], id)
  {
  }

  lemma FelledHangs(bindings: Bindings, hit: set<Key>, ids: set<string>, reason: Reason, k: Key)
    requires k in bindings && Felled(bindings, hit, ids, reason)[k] != bindings[k] && k !in hit
    ensures Reached(bindings, ids, k)
  {
    hide Chain, Live;
    var mid := InvalidatedBindings(bindings, hit, reason);
    assert k in ReachedSet(mid, ids);
    assert forall i :: Live(mid, i) ==> Live(bindings, i) by { FewerLive(bindings, hit, reason); }
    ReachedAmongFewer(bindings, mid, ids);
    assert k in ReachedSet(bindings, ids);
  }

  lemma FewerLive(bindings: Bindings, hit: set<Key>, reason: Reason)
    ensures forall i :: Live(InvalidatedBindings(bindings, hit, reason), i) ==> Live(bindings, i)
  {
  }

  lemma FelledIsPurged(s: Snapshot, change: Change, hit: set<Key>, t: Snapshot)
    requires change.MemoryInvalidated? && forall k :: k in hit <==> Named(s, change, k)
    requires t.bindings == Felled(s.bindings, hit, set k | k in hit :: k.id, change.reason)
    ensures Purged(s, change, t)
  {
    hide Felled, Named, DependsOn, WentInvalid, Reached;
    var ids := set k | k in hit :: k.id;
    forall k | k in hit ensures Live(s.bindings, k) { NamedIsLive(s, change, k); }
    FelledEach(s.bindings, hit, ids, change.reason);
    forall j, k | Live(s.bindings, j) && !Live(t.bindings, j) && Live(t.bindings, k)
      ensures !DependsOn(s.bindings[k], j.id)
    {
      FelledCloses(s.bindings, hit, ids, change.reason, j, k);
    }
    assert ids == NamedIds(s, change) by {
      forall k | k in hit ensures k in s.bindings { NamedIsLive(s, change, k); }
    }
    forall k | k in s.bindings && t.bindings[k] != s.bindings[k] && !Named(s, change, k)
      ensures Reached(s.bindings, NamedIds(s, change), k)
    {
      FelledHangs(s.bindings, hit, ids, change.reason, k);
    }
  }

  lemma NamedIsLive(s: Snapshot, change: Change, k: Key)
    requires change.MemoryInvalidated? && Named(s, change, k)
    ensures Live(s.bindings, k) && k in s.bindings
  {
  }

  /** Live before, invalid now for this reason, one revision further, at a new epoch, evidenced by the
      event, and with its commit and digest as they were. */
  predicate PathWentInvalid(ev: Event, p: PathState, q: PathState, epoch: nat, reason: Reason) {
    && p.mark.status != Invalidated && q.mark.status == Invalidated && q.mark.reason == reason
    && OneUp(p.mark.revision, q.mark.revision)
    && q == PathState(p.commit, p.digest, q.mark, epoch, ev.id)
  }

  ghost predicate PathsPurged(s: Snapshot, ev: Event, reason: Reason, t: Snapshot, paths: seq<string>) {
    && t.bindings == s.bindings && t.current == s.current && t.revision == s.revision && t.known.Keys == s.known.Keys
    && t.clocks == s.clocks.(now := t.clocks.now, paths := t.clocks.paths) && t.clocks.now >= s.clocks.now
    && forall k: PathKey ::
         if k in s.known && s.known[k].mark.status != Invalidated && k.repo == s.current.repo && k.branch == s.current.branch && k.path in paths then
           && PathWentInvalid(ev, s.known[k], t.known[k], EpochOf(t.clocks.paths, k), reason)
           && EpochOf(t.clocks.paths, k) >= s.clocks.now
           && (s.clocks.now < MaxEpoch ==> EpochOf(t.clocks.paths, k) > s.clocks.now)
         else
           && (k in s.known ==> t.known[k] == s.known[k]) && EpochOf(t.clocks.paths, k) == EpochOf(s.clocks.paths, k)
  }

  lemma OnePathPurged(s: Snapshot, ev: Event, reason: Reason, path: string)
    ensures PathsPurged(s, ev, reason, InvalidatePath(s, ev, reason, path), [path])
  {
    hide BumpPath, EpochOf;
    var k := PathKey(s.current.repo, s.current.branch, path);
    OneBump(s.clocks, k);
  }

  lemma {:induction false} AllPathsPurged(s: Snapshot, ev: Event, reason: Reason, paths: seq<string>)
    requires forall i, j :: 0 <= i < j < |paths| ==> paths[i] != paths[j]
    ensures PathsPurged(s, ev, reason, InvalidatePaths(s, ev, reason, paths), paths)
    decreases |paths|
  {
    hide InvalidatePath, PathsPurged;
    if paths == [] {
      NoPathPurged(s, ev, reason);
    } else {
      OnePathPurged(s, ev, reason, paths[0]);
      var m, rest := InvalidatePath(s, ev, reason, paths[0]), paths[1..];
      assert forall i, j :: 0 <= i < j < |rest| ==> rest[i] == paths[i + 1] && rest[j] == paths[j + 1];
      AllPathsPurged(m, ev, reason, rest);
      assert paths == [paths[0]] + rest;
      PurgesCombine(s, m, InvalidatePaths(m, ev, reason, rest), ev, reason, [paths[0]], rest);
    }
  }

  lemma NoPathPurged(s: Snapshot, ev: Event, reason: Reason)
    ensures PathsPurged(s, ev, reason, s, [])
  {
  }

  lemma PurgesCombine(s: Snapshot, m: Snapshot, t: Snapshot, ev: Event, reason: Reason, a: seq<string>, b: seq<string>)
    requires (forall p :: p in a ==> p !in b) && PathsPurged(s, ev, reason, m, a) && PathsPurged(m, ev, reason, t, b)
    ensures PathsPurged(s, ev, reason, t, a + b)
  {
  }

  /** Every live path of the current place at or beneath the target is invalid at a new epoch; no other
      path or epoch changed. */
  ghost predicate RegionPurged(s: Snapshot, ev: Event, t: Snapshot)
    requires ev.change.MemoryInvalidated?
  {
    && t.known.Keys == s.known.Keys && t.clocks == s.clocks.(now := t.clocks.now, paths := t.clocks.paths)
    && forall k: PathKey ::
         if k in s.known && s.known[k].mark.status != Invalidated && k.repo == s.current.repo && k.branch == s.current.branch
            && PathWithin(k.path, ev.change.target) then
           && PathWentInvalid(ev, s.known[k], t.known[k], EpochOf(t.clocks.paths, k), ev.change.reason)
           && (s.clocks.now < MaxEpoch ==> EpochOf(t.clocks.paths, k) > s.clocks.now)
         else
           && (k in s.known ==> t.known[k] == s.known[k]) && EpochOf(t.clocks.paths, k) == EpochOf(s.clocks.paths, k)
  }

  /** An invalidation is taken exactly when its target is known and not invalid already.  It fells the
      named bindings and all that hang from them, and, for a path, the region beneath it. */
  lemma InvalidationLaw(s: Snapshot, ev: Event)
    requires ev.change.MemoryInvalidated?
    ensures Applied(s, ev).Ok? <==>
              if ev.change.kind == PathTarget then
                var k := PathKey(s.current.repo, s.current.branch, ev.change.target);
                k in s.known && s.known[k].mark.status != Invalidated
              else
                var k := Key(ev.change.kind, ev.change.target);
                k in s.bindings && s.bindings[k].mark.status != Invalidated
    ensures Applied(s, ev).Ok? ==>
              var t := Applied(s, ev).value;
              && t.current == s.current && t.revision == s.revision && Purged(s, ev.change, t)
              && (if ev.change.kind == PathTarget then RegionPurged(s, ev, t) else t.known == s.known && t.clocks == s.clocks)
  {
    hide Purged, RegionPurged, InvalidatePaths, InvalidateTouching, Cascaded, PathsBelow;
    if Applied(s, ev).Ok? {
      if ev.change.kind == PathTarget { PathInvalidationLeaves(s, ev); } else { BindingInvalidationLeaves(s, ev); }
    }
  }

  lemma BindingInvalidationLeaves(s: Snapshot, ev: Event)
    requires ev.change.MemoryInvalidated? && ev.change.kind != PathTarget && Applied(s, ev).Ok?
    ensures var t := Applied(s, ev).value;
            t.current == s.current && t.revision == s.revision && t.known == s.known && t.clocks == s.clocks && Purged(s, ev.change, t)
  {
    hide Purged, ReachedSet;
    var k, t := Key(ev.change.kind, ev.change.target), Applied(s, ev).value;
    var hit := {k};
    assert InvalidatedBindings(s.bindings, hit, ev.change.reason)
        == s.bindings[k := s.bindings[k].(mark := MadeInvalid(s.bindings[k].mark, ev.change.reason))];
    assert (set j | j in hit :: j.id) == {ev.change.target};
    FelledIsPurged(s, ev.change, hit, t);
  }

  lemma PathInvalidationLeaves(s: Snapshot, ev: Event)
    requires ev.change.MemoryInvalidated? && ev.change.kind == PathTarget && Applied(s, ev).Ok?
    ensures var t := Applied(s, ev).value;
            t.current == s.current && t.revision == s.revision && RegionPurged(s, ev, t) && Purged(s, ev.change, t)
  {
    hide Purged, Cascaded, RegionPurged, InvalidatePaths, PathsPurged, PathsBelow;
    var t := Applied(s, ev).value;
    var below := InvalidatePaths(s, ev, ev.change.reason, SortedListing(PathsBelow(s, s.current, ev.change.target)));
    RegionIsPurged(s, ev);
    assert t == below.(bindings := t.bindings);
    assert RegionPurged(s, ev, t) by { BindingsAside(s, ev, below, t); }
    var hit := LiveHits(s.bindings, TouchingAnywhere(ev.change.target));
    assert IdsOf(hit) == set k | k in hit :: k.id;
    TouchedAreNamed(s, ev.change);
    FelledIsPurged(s, ev.change, hit, t);
  }

  lemma BindingsAside(s: Snapshot, ev: Event, m: Snapshot, t: Snapshot)
    requires ev.change.MemoryInvalidated? && RegionPurged(s, ev, m) && t == m.(bindings := t.bindings)
    ensures RegionPurged(s, ev, t)
  {
  }

  lemma RegionIsPurged(s: Snapshot, ev: Event)
    requires ev.change.MemoryInvalidated?
    ensures var m := InvalidatePaths(s, ev, ev.change.reason, SortedListing(PathsBelow(s, s.current, ev.change.target)));
            m.bindings == s.bindings && m.current == s.current && m.revision == s.revision && RegionPurged(s, ev, m)
  {
    hide PathWithin, InvalidatePaths, PathWentInvalid, Sorted, EpochOf;
    var paths := SortedListing(PathsBelow(s, s.current, ev.change.target));
    SortedIsDistinct(paths);
    AllPathsPurged(s, ev, ev.change.reason, paths);
    forall k | k in s.known && k.repo == s.current.repo && k.branch == s.current.branch
      ensures k.path in paths <==> PathWithin(k.path, ev.change.target)
    {
      if k.path in paths {
        var j :| j in s.known && j.repo == s.current.repo && j.branch == s.current.branch && PathWithin(j.path, ev.change.target) && j.path == k.path;
      }
    }
  }

  lemma TouchedAreNamed(s: Snapshot, change: Change)
    requires change.MemoryInvalidated? && change.kind == PathTarget
    ensures forall k :: k in LiveHits(s.bindings, TouchingAnywhere(change.target)) <==> Named(s, change, k)
  {
    hide PathWithin;
  }

  // ---- revalidation ----

  /** The path as a revalidation finds it: stale, at exactly the expected revision, and with the digest
      it had, if it had one. */
  predicate StalePathAt(s: Snapshot, change: Change, revision: nat, digest: string)
    requires change.MemoryRevalidated?
  {
    var k := PathKey(s.current.repo, s.current.branch, change.staleTarget);
    && k in s.known && s.known[k].mark.status == Stale && s.known[k].mark.revision == revision
    && (s.known[k].digest == "" || s.known[k].digest == digest)
  }

  predicate StaleBindingAt(s: Snapshot, change: Change, revision: nat)
    requires change.MemoryRevalidated?
  {
    var k := Key(change.staleKind, change.staleTarget);
    k in s.bindings && s.bindings[k].mark.status == Stale && s.bindings[k].mark.revision == revision
  }

  /** Everything the binding rests on is usable now: its paths are known, active and under nothing dead
      in the current place, its references are eligible evidence, a page's source is unchanged. */
  ghost predicate Grounded(s: Snapshot, change: Change)
    requires change.MemoryRevalidated? && Key(change.staleKind, change.staleTarget) in s.bindings
  {
    var b := s.bindings[Key(change.staleKind, change.staleTarget)];
    && (change.staleKind == PageTarget && b.digest != "" ==> b.digest == change.sourceDigest)
    && (forall p :: p in b.paths ==>
          var k := PathKey(s.current.repo, s.current.branch, p);
          k in s.known && s.known[k].mark.status == Active && !UnderDead(s, s.current.repo, s.current.branch, p))
    && (forall r :: r in b.refs ==> EligibleEvidence(s, r))
  }

  /** A revalidation is taken exactly when its evidence is eligible, its target is stale at exactly the
      expected revision, and everything the target rests on is usable now. */
  lemma RevalidationLaw(s: Snapshot, ev: Event)
    requires ev.change.MemoryRevalidated?
    ensures Applied(s, ev).Ok? <==>
              && EligibleEvidence(s, ev.change.evidenceRef)
              && if ev.change.staleKind == PathTarget then StalePathAt(s, ev.change, ev.change.expected, ev.change.sourceDigest)
                 else StaleBindingAt(s, ev.change, ev.change.expected) && Grounded(s, ev.change)
  {
    hide EligibleEvidence, TerminalOverlap, UnderDead, Captured;
    if ev.change.staleKind != PathTarget && Key(ev.change.staleKind, ev.change.staleTarget) in s.bindings {
      var b := s.bindings[Key(ev.change.staleKind, ev.change.staleTarget)];
      forall p | p in b.paths
        ensures TerminalOverlap(s.known, s.current.repo, s.current.branch, p) == UnderDead(s, s.current.repo, s.current.branch, p)
      {
        TerminalIsUnderDead(s, s.current.repo, s.current.branch, p);
      }
    }
  }

  /** The refusal that names a lost race: exactly when the evidence is eligible and the target is stale
      at another revision than the expected one. */
  lemma RaceLaw(s: Snapshot, ev: Event)
    requires ev.change.MemoryRevalidated?
    ensures Applied(s, ev) == Err(StaleRevision) <==>
              && EligibleEvidence(s, ev.change.evidenceRef)
              && if ev.change.staleKind == PathTarget then
                   var k := PathKey(s.current.repo, s.current.branch, ev.change.staleTarget);
                   k in s.known && s.known[k].mark.status == Stale && s.known[k].mark.revision != ev.change.expected
                 else
                   var k := Key(ev.change.staleKind, ev.change.staleTarget);
                   k in s.bindings && s.bindings[k].mark.status == Stale && s.bindings[k].mark.revision != ev.change.expected
  {
    hide EligibleEvidence, PathReady, Captured;
  }

  /** The path is active again at the same revision and digest, seen at the current commit, evidenced by
      the event, and at an epoch of its own; nothing else changed. */
  ghost predicate PathIsBack(s: Snapshot, ev: Event, t: Snapshot)
    requires ev.change.MemoryRevalidated?
  {
    var k := PathKey(s.current.repo, s.current.branch, ev.change.staleTarget);
    && k in s.known
    && t == s.(known := s.known[k := PathState(s.current.commit, s.known[k].digest, Mark(Active, s.known[k].mark.revision, NoReason),
                                              EpochOf(t.clocks.paths, k), ev.id)], clocks := t.clocks)
    && t.clocks == s.clocks.(now := t.clocks.now, paths := t.clocks.paths)
    && (EpochOf(s.clocks.paths, k) != 0 ==> t.clocks == s.clocks)
    && EpochOf(t.clocks.paths, k) != 0 && (forall j :: j != k ==> EpochOf(t.clocks.paths, j) == EpochOf(s.clocks.paths, j))
  }

  /** The binding is active again at the same revision, in the current place as far as it is gated, with
      the epochs of now; its provenance is as it was, and nothing else changed. */
  ghost predicate BindingIsBack(s: Snapshot, ev: Event, t: Snapshot)
    requires ev.change.MemoryRevalidated?
  {
    var k := Key(ev.change.staleKind, ev.change.staleTarget);
    && k in s.bindings && k in t.bindings && t == s.(bindings := s.bindings[k := t.bindings[k]])
    && var b, c := s.bindings[k], t.bindings[k];
       && c == b.(mark := Mark(Active, b.mark.revision, NoReason), at := c.at, epochs := c.epochs)
       && c.at.repo == (if b.needs.repo then s.current.repo else "") && c.at.task == (if b.needs.task then s.current.task else "")
       && c.at.branch == (if b.needs.branch then s.current.branch else "") && c.at.commit == (if b.needs.commit then s.current.commit else "")
       && c.epochs.repo == EpochOf(s.clocks.repos, c.at.repo)
       && c.epochs.branch == EpochOf(s.clocks.branches, BranchKey(c.at.repo, c.at.branch))
       && c.epochs.commit == EpochOf(s.clocks.commits, CommitKey(c.at.repo, c.at.branch, c.at.commit))
       && c.epochs.paths.Keys == (set p | p in b.paths)
       && forall p :: p in b.paths ==> c.epochs.paths[p] == EpochOf(s.clocks.paths, PathKey(c.at.repo, c.at.branch, p))
  }

  lemma RevalidationEffect(s: Snapshot, ev: Event)
    requires ev.change.MemoryRevalidated? && Applied(s, ev).Ok?
    ensures if ev.change.staleKind == PathTarget then PathIsBack(s, ev, Applied(s, ev).value)
            else BindingIsBack(s, ev, Applied(s, ev).value)
  {
    hide EligibleEvidence, PathReady;
  }

  /** Reads, writes, commands and messages move nothing by themselves. */
  lemma PlainEventsChangeNothing(s: Snapshot, ev: Event)
    requires ev.change.FileTouched? || ev.change.CommandRan? || ev.change.OtherChange?
    ensures Applied(s, ev) == Ok(s)
  {
  }
}
