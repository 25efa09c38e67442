/** Active branch-scoped bindings match the current place. */
module ScopeHistory {
  import opened Paths
  import opened Snapshots
  import opened Eligibility
  import opened Cascade
  import opened Transitions
  import opened PathHistory

  // They do as long as events speak of the current place.

  /** The shape every binding is given: a commit gate brings a branch gate, any gate brings the
      repository's, and what is not gated is left empty. */
  predicate WellGated(b: Binding) {
    && (b.needs.commit ==> b.needs.branch)
    && (b.needs.branch || b.needs.task ==> b.needs.repo)
    && PlaceNeeded(b.needs, b.at) == b.at
    && (!b.needs.repo ==> b.scope == GlobalScope)
  }

  /** Active, and in the current repository, branch and commit as far as it is gated by them. */
  predicate InScope(s: Snapshot, b: Binding) {
    && (b.needs.repo ==> b.at.repo == s.current.repo)
    && (BranchScoped(b) ==> MatchesCurrent(b, s.current, s.clocks))
  }

  predicate ScopeMatched(s: Snapshot) {
    forall k :: k in s.bindings ==> WellGated(s.bindings[k]) && (s.bindings[k].mark.status == Active ==> InScope(s, s.bindings[k]))
  }

  predicate Speaks(spoken: string, current: string) {
    spoken == "" || spoken == current
  }

  /** The envelope is silent about the place, or names the current one. */
  predicate SpeaksOfCurrent(s: Snapshot, at: Place) {
    Speaks(at.repo, s.current.repo) && Speaks(at.branch, s.current.branch) && Speaks(at.commit, s.current.commit)
  }

  predicate PagesSpeakOfCurrent(s: Snapshot, records: seq<Derived>) {
    forall r :: r in records && r.PageRecord? ==> Speaks(r.branch, s.current.branch)
  }

  /** The input speaks of the place that is current once its event is applied. */
  ghost predicate WellSpoken(s: Snapshot, input: Input) {
    match Applied(s, input.event)
    case Err(_) => true
    case Ok(t) => SpeaksOfCurrent(t, input.event.at) && PagesSpeakOfCurrent(t, input.records)
  }

  // ---- applying the event ----

  /** Only marks move, and nothing becomes active. */
  ghost predicate Weakened(before: Bindings, after: Bindings) {
    && before.Keys == after.Keys
    && (forall k :: k in before ==> after[k].(mark := before[k].mark) == before[k])
    && (forall k :: k in before && after[k].mark.status == Active ==> after[k] == before[k])
  }

  lemma WeakenedTwice(a: Bindings, b: Bindings, c: Bindings)
    requires Weakened(a, b) && Weakened(b, c)
    ensures Weakened(a, c)
  {
  }

  /** Only marks move, and what stays active is in scope. */
  ghost predicate OnlyMarks(before: Bindings, s: Snapshot) {
    Weakened(before, s.bindings) && forall k :: k in before && s.bindings[k].mark.status == Active ==> InScope(s, before[k])
  }

  lemma MarksKeepScope(r: Snapshot, s: Snapshot)
    requires ScopeMatched(r) && OnlyMarks(r.bindings, s)
    ensures ScopeMatched(s)
  {
    hide InScope, PlaceNeeded;
    forall k | k in s.bindings
      ensures WellGated(s.bindings[k]) && (s.bindings[k].mark.status == Active ==> InScope(s, s.bindings[k]))
    {
      assert WellGated(r.bindings[k]);
    }
  }

  /** What staling does to each binding. */
  lemma Staled(s: Snapshot, m: Match)
    ensures var t := StaledBindings(s.bindings, m);
            Weakened(s.bindings, t) && forall k :: k in t && t[k].mark.status == Active ==> !Hits(m, s.bindings[k])
  {
    hide Hits;
  }

  lemma StartTaskInScope(s: Snapshot, ev: Event)
    requires ScopeMatched(s) && ev.change.TaskStarted?
    ensures ScopeMatched(StartTask(s, ev))
  {
    hide MatchesCurrent, PlaceNeeded, EnterScope, ScopeMatched, StaledBindings, Weakened;
    var left := if s.current.repo != ev.at.repo then StaleMatching(s, NotGlobal) else s;
    var closed := StaleMatching(left, TaskBound);
    var entered := closed.(current := TaskPlace(ev), clocks := EnterScope(s.clocks, TaskPlace(ev)));
    var t := StartTask(s, ev);
    Staled(s, NotGlobal);
    Staled(left, TaskBound);
    Staled(entered, OutOfScope(entered.current, entered.clocks));
    assert Weakened(s.bindings, s.bindings) by { NoneWeakened(s.bindings); }
    WeakenedTwice(s.bindings, left.bindings, closed.bindings);
    WeakenedTwice(s.bindings, closed.bindings, t.bindings);
    forall k | k in s.bindings && t.bindings[k].mark.status == Active
      ensures InScope(t, s.bindings[k])
    {
      ScopeMatchedAt(s, k);
      WeakenedAt(closed.bindings, t.bindings, k);
      WeakenedAt(left.bindings, closed.bindings, k);
      WeakenedAt(s.bindings, left.bindings, k);
    }
    assert t.bindings.Keys == s.bindings.Keys by { WeakenedKeys(s.bindings, t.bindings); }
    MarksKeepScope(s, t);
  }

  lemma NoneWeakened(b: Bindings)
    ensures Weakened(b, b)
  {
  }

  lemma WeakenedKeys(a: Bindings, b: Bindings)
    requires Weakened(a, b)
    ensures a.Keys == b.Keys
  {
  }

  lemma WeakenedAt(a: Bindings, b: Bindings, k: Key)
    requires Weakened(a, b) && k in b && b[k].mark.status == Active
    ensures k in a && a[k] == b[k]
  {
  }

  lemma ScopeMatchedAt(s: Snapshot, k: Key)
    requires ScopeMatched(s) && k in s.bindings
    ensures WellGated(s.bindings[k]) && (s.bindings[k].mark.status == Active ==> InScope(s, s.bindings[k]))
  {
  }

  lemma ChangeBranchInScope(s: Snapshot, ev: Event)
    requires ScopeMatched(s) && ev.change.BranchChange? && ChangeBranch(s, ev).Ok?
    ensures ScopeMatched(ChangeBranch(s, ev).value)
  {
    hide MatchesCurrent, PlaceNeeded, EnterBranch, ScopeMatched, StaledBindings;
    var t := ChangeBranch(s, ev).value;
    Staled(s, OutOfScopeInRepo(ev.at.repo, t.current, t.clocks));
    forall k | k in s.bindings && t.bindings[k].mark.status == Active
      ensures InScope(t, s.bindings[k])
    {
      ScopeMatchedAt(s, k);
    }
    MarksKeepScope(s, t);
  }

  lemma ChangeCommitInScope(s: Snapshot, ev: Event)
    requires ScopeMatched(s) && ev.change.CommitChange? && ChangeCommit(s, ev).Ok?
    ensures ScopeMatched(ChangeCommit(s, ev).value)
  {
    hide PlaceNeeded, EnterCommit, ScopeMatched, StaledPaths, StaledBindings;
    var t := ChangeCommit(s, ev).value;
    Staled(s, OutOfScopeInBranch(ev.at.repo, ev.at.branch, t.current, t.clocks));
    forall k | k in s.bindings && t.bindings[k].mark.status == Active
      ensures InScope(t, s.bindings[k])
    {
      ScopeMatchedAt(s, k);
    }
    MarksKeepScope(s, t);
  }

  /** The place and its epochs unchanged, nothing becomes active: nothing falls out of scope. */
  lemma SamePlaceKeepsScope(s: Snapshot, t: Snapshot)
    requires ScopeMatched(s)
    requires t.current == s.current && t.clocks.branches == s.clocks.branches && t.clocks.commits == s.clocks.commits
    requires Weakened(s.bindings, t.bindings)
    ensures ScopeMatched(t)
  {
    hide PlaceNeeded, ScopeMatched;
    forall k | k in s.bindings && t.bindings[k].mark.status == Active
      ensures InScope(t, s.bindings[k])
    {
      ScopeMatchedAt(s, k);
    }
    MarksKeepScope(s, t);
  }

  lemma SnapshotKeepsScopeEpochs(s: Snapshot, ev: Event)
    requires ev.change.FileSnapshot?
    ensures SnapshotClocks(s, ev).branches == s.clocks.branches && SnapshotClocks(s, ev).commits == s.clocks.commits
  {
  }

  lemma SnapshotFileInScope(s: Snapshot, ev: Event)
    requires ScopeMatched(s) && ev.change.FileSnapshot? && SnapshotFile(s, ev).Ok?
    ensures ScopeMatched(SnapshotFile(s, ev).value)
  {
    hide ScopeMatched, TerminalOverlap, Hits, StaledBindings, Weakened, SnapshotClocks, EpochOf;
    NoneWeakened(s.bindings);
    SnapshotKeepsScopeEpochs(s, ev);
    Staled(s, Touching(ev.at.repo, ev.at.branch, [ev.change.path]));
    SamePlaceKeepsScope(s, SnapshotFile(s, ev).value);
  }

  lemma RenameFileInScope(s: Snapshot, ev: Event)
    requires ScopeMatched(s) && ev.change.FileRenamed? && RenameFile(s, ev).Ok?
    ensures ScopeMatched(RenameFile(s, ev).value)
  {
    hide ScopeMatched, TerminalOverlap, Hits, RenamePaths, RenameAffects, StaledBindings, Weakened;
    Staled(s, Touching(ev.at.repo, ev.at.branch, [ev.change.from, ev.change.to]));
    RenamePathsFrame(s, ev, SortedListing(RenameAffects(s, ev.at, ev.change.from, ev.change.to)));
    SamePlaceKeepsScope(s, RenameFile(s, ev).value);
  }

  lemma InvalidatedEach(bindings: Bindings, root: string, reason: Reason)
    ensures Weakened(bindings, InvalidateTouching(bindings, root, reason))
  {
    hide Weakened, IdsOf, LiveHits, Cascaded;
    var hit := LiveHits(bindings, TouchingAnywhere(root));
    HitWeakens(bindings, hit, reason);
    CascadeWeakens(InvalidatedBindings(bindings, hit, reason), IdsOf(hit), reason);
    WeakenedTwice(bindings, InvalidatedBindings(bindings, hit, reason), InvalidateTouching(bindings, root, reason));
  }

  lemma HitWeakens(b: Bindings, hit: set<Key>, reason: Reason)
    ensures Weakened(b, InvalidatedBindings(b, hit, reason))
  {
  }

  lemma InvalidateFileInScope(s: Snapshot, ev: Event)
    requires ScopeMatched(s) && ev.change.MemoryInvalidated? && InvalidateFile(s, ev).Ok?
    ensures ScopeMatched(InvalidateFile(s, ev).value)
  {
    hide ScopeMatched, InvalidatePaths, PathsBelow, InvalidateTouching, Weakened;
    InvalidatedEach(s.bindings, ev.change.target, ev.change.reason);
    InvalidatePathsEffect(s, ev, ev.change.reason, SortedListing(PathsBelow(s, s.current, ev.change.target)));
    SamePlaceKeepsScope(s, InvalidateFile(s, ev).value);
  }

  lemma BindingInvalidatedWeakens(s: Snapshot, ev: Event)
    requires ev.change.MemoryInvalidated? && InvalidateBinding(s, ev).Ok?
    ensures Weakened(s.bindings, InvalidateBinding(s, ev).value.bindings)
  {
    hide ReachedSet, Weakened;
    var k := Key(ev.change.kind, ev.change.target);
    var first := s.bindings[k := s.bindings[k].(mark := MadeInvalid(s.bindings[k].mark, ev.change.reason))];
    OneWeakened(s.bindings, k, ev.change.reason);
    CascadeWeakens(first, {ev.change.target}, ev.change.reason);
    WeakenedTwice(s.bindings, first, Cascaded(first, {ev.change.target}, ev.change.reason));
  }

  lemma OneWeakened(b: Bindings, k: Key, reason: Reason)
    requires k in b
    ensures Weakened(b, b[k := b[k].(mark := MadeInvalid(b[k].mark, reason))])
  {
  }

  lemma CascadeWeakens(b: Bindings, ids: set<string>, reason: Reason)
    ensures Weakened(b, Cascaded(b, ids, reason))
  {
    hide ReachedSet;
  }

  lemma InvalidateBindingInScope(s: Snapshot, ev: Event)
    requires ScopeMatched(s) && ev.change.MemoryInvalidated? && InvalidateBinding(s, ev).Ok?
    ensures ScopeMatched(InvalidateBinding(s, ev).value)
  {
    hide ScopeMatched, Weakened, Cascaded;
    BindingInvalidatedWeakens(s, ev);
    SamePlaceKeepsScope(s, InvalidateBinding(s, ev).value);
  }

  lemma BindingInScope(s: Snapshot, k: Key, b: Binding)
    requires ScopeMatched(s) && WellGated(b) && (b.mark.status == Active ==> InScope(s, b))
    ensures ScopeMatched(s.(bindings := s.bindings[k := b]))
  {
    hide MatchesCurrent, PlaceNeeded;
  }

  lemma RevalidateInScope(s: Snapshot, ev: Event)
    requires ScopeMatched(s) && ev.change.MemoryRevalidated? && Revalidate(s, ev).Ok?
    ensures ScopeMatched(Revalidate(s, ev).value)
  {
    hide ScopeMatched, EligibleEvidence, PathReady, TerminalOverlap, CapturePaths, MatchesCurrent, Weakened;
    if ev.change.staleKind == PathTarget {
      NoneWeakened(s.bindings);
      SamePlaceKeepsScope(s, Revalidate(s, ev).value);
    } else {
      var k := Key(ev.change.staleKind, ev.change.staleTarget);
      var b := s.bindings[k];
      ScopeMatchedAt(s, k);
      var b' := b.(mark := Mark(Active, b.mark.revision, NoReason), at := PlaceNeeded(b.needs, s.current));
      if BranchScoped(b) { CapturedMatches(b', s.current, s.clocks); }
      BindingInScope(s, k, Revalidated(s, b));
    }
  }

  lemma AppliedInScope(s: Snapshot, ev: Event)
    requires ScopeMatched(s) && Applied(s, ev).Ok?
    ensures ScopeMatched(Applied(s, ev).value)
  {
    hide ScopeMatched, StartTask, ChangeBranch, ChangeCommit, SnapshotFile, RenameFile, InvalidateFile, InvalidateBinding, Revalidate;
    match ev.change
    case TaskStarted(_) => StartTaskInScope(s, ev);
    case BranchChange(_, _) => ChangeBranchInScope(s, ev);
    case CommitChange(_) => ChangeCommitInScope(s, ev);
    case FileSnapshot(_, _) => SnapshotFileInScope(s, ev);
    case FileRenamed(_, _, _) => RenameFileInScope(s, ev);
    case MemoryInvalidated(kind, _, _) =>
      if kind == PathTarget { InvalidateFileInScope(s, ev); } else { InvalidateBindingInScope(s, ev); }
    case MemoryRevalidated(_, _, _, _, _) => RevalidateInScope(s, ev);
    case _ =>
  }

  // ---- binding what comes after ----

  predicate Shaped(b: Binding) {
    && (b.needs.commit ==> b.needs.branch)
    && (b.needs.branch || b.needs.task ==> b.needs.repo)
    && (!b.needs.repo ==> b.scope == GlobalScope)
  }

  /** Not yet gated by its own scope, but so that gating will complete it. */
  predicate Shapeable(b: Binding) {
    && (b.needs.commit ==> b.needs.branch || b.scope == BranchScope)
    && (b.needs.branch || b.needs.task ==> b.needs.repo)
  }

  predicate Placeable(s: Snapshot, b: Binding) {
    && Speaks(b.at.repo, s.current.repo) && Speaks(b.at.branch, s.current.branch) && Speaks(b.at.commit, s.current.commit)
    && (b.needs.repo ==> b.at.repo == s.current.repo)
  }

  predicate Placed(s: Snapshot, b: Binding) {
    && (b.needs.repo ==> b.at.repo == s.current.repo)
    && (b.needs.branch ==> b.at.branch == s.current.branch)
    && (b.needs.commit ==> b.at.commit == s.current.commit)
  }

  lemma GatingShapes(b: Binding, scope: ScopeName, current: Place)
    requires (Shapeable(b) && scope == b.scope) || Shaped(b)
    ensures Shaped(AddGates(b, scope, current))
  {
  }

  lemma GatingPlaces(s: Snapshot, b: Binding, scope: ScopeName)
    requires Placeable(s, b)
    ensures var g := AddGates(b, scope, s.current); Placeable(s, g) && Placed(s, g)
  {
  }

  lemma FinishingMatches(s: Snapshot, b: Binding)
    requires Shaped(b) && (b.mark.status == Active ==> Placed(s, b))
    ensures var g := Captured(Canonical(b), s.clocks); WellGated(g) && (g.mark.status == Active ==> InScope(s, g))
  {
    hide CapturePaths, MatchesCurrent;
    var c := Canonical(b);
    if c.needs.branch && b.mark.status == Active { CapturedMatches(c, s.current, s.clocks); }
  }

  lemma SpokenIsCurrent(s: Snapshot, at: Place)
    requires SpeaksOfCurrent(s, at)
    ensures var p := SpokenPlace(s, at); p.repo == s.current.repo && p.branch == s.current.branch && p.commit == s.current.commit
  {
  }

  lemma EventInScope(s: Snapshot, ev: Event)
    requires ScopeMatched(s) && SpeaksOfCurrent(s, ev.at)
    ensures ScopeMatched(EventBound(s, ev))
  {
    hide ScopeMatched, Captured, Canonical, AddGates, Shaped, SpokenPlace, WellGated, InScope, SpeaksOfCurrent, Placed, Placeable;
    var scope := EventScope(ev.change);
    var b := Fresh(s, ev, scope);
    SpokenIsCurrent(s, ev.at);
    var b1 :=
      if ev.change.FileSnapshot? then b.(paths := [ev.change.path], digest := ev.change.digest)
      else if ev.hintedFile != "" then b.(paths := [ev.hintedFile]) else b;
    FreshIsPlaceable(s, b1);
    GatingShapes(b1, scope, s.current);
    GatingPlaces(s, b1, scope);
    var b2 := AddGates(b1, scope, s.current);
    var b3 := if scope == BranchScope then b2.(needs := b2.needs.(commit := true)) else b2;
    if scope == BranchScope { CommitGate(s, b1, scope); }
    FinishingMatches(s, b3);
    CapturedKeepsMark(b3, s.clocks);
    BindingInScope(s, Key(EventTarget, ev.id), EventBinding(s, ev));
  }

  lemma FreshIsPlaceable(s: Snapshot, b: Binding)
    requires b.at.repo == s.current.repo && b.at.branch == s.current.branch && b.at.commit == s.current.commit
    ensures Placeable(s, b)
  {
  }

  lemma CommitGate(s: Snapshot, b: Binding, scope: ScopeName)
    requires b.at.repo == s.current.repo && b.at.branch == s.current.branch && b.at.commit == s.current.commit
    requires Shapeable(b) && scope == b.scope == BranchScope
    ensures var g := AddGates(b, scope, s.current); var c := g.(needs := g.needs.(commit := true)); Shaped(c) && Placed(s, c)
  {
  }

  lemma CapturedKeepsMark(b: Binding, c: Clocks)
    ensures Captured(Canonical(b), c).mark == b.mark
  {
  }

  lemma FinishedInScope(s: Snapshot, k: Key, b: Binding, extra: Option<ScopeName>)
    requires Shapeable(b) && (b.mark.status == Active ==> Placeable(s, b))
    requires Finished(s, k, b, extra).Ok?
    ensures var g := Finished(s, k, b, extra).value.value.1; WellGated(g) && (g.mark.status == Active ==> InScope(s, g))
  {
    hide Captured, Canonical, WellGated, InScope, Placed, SupportedScope, GatesOf;
    var scoped := if b.scope == NoScope then b.(scope := TaskScope) else b;
    assert b.mark.status == Active ==> Placeable(s, scoped);
    GatingShapes(scoped, scoped.scope, s.current);
    var gated := AddGates(scoped, scoped.scope, s.current);
    if b.mark.status == Active { GatingPlaces(s, scoped, scoped.scope); }
    if extra.Some? {
      GatingShapes(gated, extra.value, s.current);
      if b.mark.status == Active { GatingPlaces(s, gated, extra.value); }
    }
    var both := if extra.Some? then AddGates(gated, extra.value, s.current) else gated;
    FinishingMatches(s, both);
    CapturedKeepsMark(both, s.clocks);
  }

  /** A binding in scope can serve as the grounding of another. */
  lemma GroundingIsPlaceable(s: Snapshot, g: Binding)
    requires WellGated(g) && (g.mark.status == Active ==> InScope(s, g))
    ensures Shapeable(g) && (g.mark.status == Active ==> Placeable(s, g))
  {
    assert g.at == PlaceNeeded(g.needs, g.at);
  }

  lemma {:induction false} DerivedInScope(s: Snapshot, ev: Event, r: Derived)
    requires ScopeMatched(s) && SpeaksOfCurrent(s, ev.at)
    requires r.PageRecord? ==> Speaks(r.branch, s.current.branch)
    requires DerivedBinding(s, ev, r).Ok? && DerivedBinding(s, ev, r).value.Some?
    ensures var b := DerivedBinding(s, ev, r).value.value.1; WellGated(b) && (b.mark.status == Active ==> InScope(s, b))
  {
    hide Finished, WellGated, InScope, ScopeMatched, SpeaksOfCurrent, SpokenPlace, SupportedScope, LogicalBinding;
    SpokenIsCurrent(s, ev.at);
    match r
    case TaskRecord(id, branch, commit) => TaskRecordInScope(s, ev, id, branch, commit);
    case ScopedRecord(id, scope) => FinishedInScope(s, Key(RecordTarget, id), Fresh(s, ev, scope), None);
    case FailureRecord(id, file) =>
      FinishedInScope(s, Key(RecordTarget, id),
                      Fresh(s, ev, BranchScope).(needs := NoNeeds.(commit := true), paths := if file != "" then [file] else []), None);
    case DecisionRecord(id, scope, refs) =>
      FinishedInScope(s, Key(RecordTarget, id), Fresh(s, ev, scope).(refs := refs.value), None);
    case PageRecord(id, scope, branch, refs) =>
      var b := Fresh(s, ev, scope);
      FinishedInScope(s, Key(PageTarget, id), b.(refs := refs.value, at := b.at.(branch := FirstNonEmpty(branch, b.at.branch))), None);
    case AvoidRecord(id, ref) =>
      var extra := if ev.payloadScope == NoScope then TaskScope else ev.payloadScope;
      AvoidIsPlaceable(s, ev, ref);
      FinishedInScope(s, Key(RecordTarget, id), AvoidBinding(s, ev, ref), Some(extra));
    case PlainRecord(id) => FinishedInScope(s, Key(RecordTarget, id), Fresh(s, ev, TaskScope), None);
  }

  /** A task record speaks of its own branch and commit, but is gated by neither. */
  lemma TaskRecordInScope(s: Snapshot, ev: Event, id: string, branch: string, commit: string)
    requires SpeaksOfCurrent(s, ev.at)
    ensures var b := Fresh(s, ev, TaskScope);
            var g := Finished(s, Key(RecordTarget, id), b.(at := b.at.(branch := branch, commit := commit)), None).value.value.1;
            WellGated(g) && InScope(s, g)
  {
    hide CapturePaths, MatchesCurrent;
    SpokenIsCurrent(s, ev.at);
  }

  lemma AvoidIsPlaceable(s: Snapshot, ev: Event, ref: string)
    requires ScopeMatched(s) && SpeaksOfCurrent(s, ev.at)
    ensures var b := AvoidBinding(s, ev, ref); Shapeable(b) && (b.mark.status == Active ==> Placeable(s, b))
  {
    hide WellGated, InScope, SpokenPlace, SpeaksOfCurrent;
    SpokenIsCurrent(s, ev.at);
    match LogicalBinding(s, ref)
    case None =>
    case Some(g) => GroundingIsPlaceable(s, g);
  }

  lemma {:induction false} BindAllInScope(s: Snapshot, ev: Event, records: seq<Derived>)
    requires ScopeMatched(s) && SpeaksOfCurrent(s, ev.at) && PagesSpeakOfCurrent(s, records) && BindAll(s, ev, records).Ok?
    ensures ScopeMatched(BindAll(s, ev, records).value)
    decreases |records|
  {
    hide ScopeMatched, DerivedBinding, WellGated, InScope;
    if records != [] {
      assert records[0] in records;
      match DerivedBinding(s, ev, records[0])
      case Ok(None) => BindAllInScope(s, ev, records[1..]);
      case Ok(Some((k, b))) =>
        DerivedInScope(s, ev, records[0]);
        BindingInScope(s, k, b);
        BindAllInScope(s.(bindings := s.bindings[k := b]), ev, records[1..]);
    }
  }

  lemma TaskNamedInScope(s: Snapshot, ev: Event, records: seq<Derived>)
    requires ScopeMatched(s)
    requires Key(EventTarget, ev.id) in s.bindings ==> s.bindings[Key(EventTarget, ev.id)].needs.task
    ensures ScopeMatched(TaskNamed(s, ev, records))
  {
    hide FirstTask;
    var t := TaskNamed(s, ev, records);
    forall k | k in t.bindings
      ensures WellGated(t.bindings[k]) && (t.bindings[k].mark.status == Active ==> InScope(t, t.bindings[k]))
    {
      ScopeMatchedAt(s, k);
    }
  }

  lemma StartedEventNeedsTask(s: Snapshot, ev: Event)
    requires ev.change.TaskStarted?
    ensures EventBinding(s, ev).needs.task
  {
    hide CapturePaths;
  }

  /** A committed input that speaks of the current place keeps every active binding in scope. */
  lemma CommittedInScope(s: Snapshot, input: Input)
    requires ScopeMatched(s) && WellSpoken(s, input) && Committed(s, input).Ok?
    ensures ScopeMatched(Committed(s, input).value)
  {
    hide ScopeMatched, Applied, EventBinding, BindAll, SpeaksOfCurrent, PagesSpeakOfCurrent, FirstTask;
    var ev := input.event;
    var applied := Applied(s, ev).value;
    AppliedInScope(s, ev);
    EventInScope(applied, ev);
    var known := EventBound(applied, ev);
    var named := TaskNamed(known, ev, input.records);
    if ev.change.TaskStarted? {
      StartedEventNeedsTask(applied, ev);
      TaskNamedInScope(known, ev, input.records);
    }
    SamePlaceSpeaks(applied, named, ev.at, input.records);
    BindAllInScope(named, ev, input.records);
    RevisionKeepsScope(BindAll(named, ev, input.records).value, s.revision + 1);
  }

  lemma SamePlaceSpeaks(s: Snapshot, t: Snapshot, at: Place, records: seq<Derived>)
    requires SpeaksOfCurrent(s, at) && PagesSpeakOfCurrent(s, records)
    requires t.current.repo == s.current.repo && t.current.branch == s.current.branch && t.current.commit == s.current.commit
    ensures SpeaksOfCurrent(t, at) && PagesSpeakOfCurrent(t, records)
  {
  }

  lemma RevisionKeepsScope(s: Snapshot, revision: nat)
    requires ScopeMatched(s)
    ensures ScopeMatched(s.(revision := revision))
  {
    hide WellGated, MatchesCurrent;
    var t := s.(revision := revision);
    forall k | k in t.bindings
      ensures WellGated(t.bindings[k]) && (t.bindings[k].mark.status == Active ==> InScope(t, t.bindings[k]))
    {
      ScopeMatchedAt(s, k);
    }
  }

  /** Every input of a run speaks of the place current at its time. */
  ghost predicate RunWellSpoken(s: Snapshot, inputs: seq<Input>)
    decreases |inputs|
  {
    inputs == []
    || (WellSpoken(s, inputs[0])
        && match Committed(s, inputs[0])
           case Err(_) => RunWellSpoken(s, inputs[1..])
           case Ok(next) => RunWellSpoken(next, inputs[1..]))
  }

  /** No active branch-scoped binding is left behind the current branch, commit or their epochs. */
  lemma {:induction false} RunInScope(s: Snapshot, inputs: seq<Input>)
    requires ScopeMatched(s) && RunWellSpoken(s, inputs)
    ensures ScopeMatched(Run(s, inputs))
    decreases |inputs|
  {
    hide ScopeMatched, Committed, WellSpoken;
    if inputs != [] {
      match Committed(s, inputs[0])
      case Err(_) => RunInScope(s, inputs[1..]);
      case Ok(next) =>
        CommittedInScope(s, inputs[0]);
        RunInScope(next, inputs[1..]);
    }
  }

  // ---- exactly when ----

  /** The place is silent or current wherever a gate reads it. */
  predicate SpeaksFor(s: Snapshot, at: Place, needs: Needs) {
    && (needs.repo ==> Speaks(at.repo, s.current.repo))
    && (needs.branch ==> Speaks(at.branch, s.current.branch))
    && (needs.branch && needs.commit ==> Speaks(at.commit, s.current.commit))
  }

  const WholePlace := Needs(true, true, true, true)
  const BranchAndCommit := Needs(true, false, true, true)
  const TaskOnly := Needs(true, true, false, false)

  /** What the binding of an event is gated by. */
  function EventNeeds(change: Change): Needs {
    match change
    case FileSnapshot(_, _) => WholePlace
    case FileTouched => WholePlace
    case FileRenamed(_, _, _) => WholePlace
    case CommandRan => BranchAndCommit
    case _ => TaskOnly
  }

  /** An event's own binding starts in scope exactly when its envelope is silent or current in what
      the kind of event is gated by.  Otherwise it starts active and out of scope. */
  lemma EventInScopeExactly(s: Snapshot, ev: Event)
    ensures var b := EventBinding(s, ev);
            && b.mark.status == Active && b.needs == EventNeeds(ev.change) && WellGated(b)
            && (InScope(s, b) <==> SpeaksFor(s, ev.at, EventNeeds(ev.change)))
  {
    hide Captured, EpochOf, MatchesCurrent;
    EventBindingShape(s, ev);
    EventBindingMatches(s, ev);
  }

  lemma EventBindingShape(s: Snapshot, ev: Event)
    ensures var b, needs := EventBinding(s, ev), EventNeeds(ev.change);
            b.needs == needs && b.mark == NoMark && b.at == PlaceNeeded(needs, SpokenPlace(s, ev.at)) && WellGated(b)
  {
    hide CapturePaths, EpochOf;
  }

  /** Epochs captured now are current now, so only the named place can be off. */
  lemma EventBindingMatches(s: Snapshot, ev: Event)
    ensures var b := EventBinding(s, ev);
            MatchesCurrent(b, s.current, s.clocks) <==>
              b.at.branch == s.current.branch && (b.needs.commit ==> b.at.commit == s.current.commit)
  {
    hide CapturePaths, AddGates, Fresh, Canonical, EpochOf;
  }

  /** A transition keeps every active binding in scope exactly when its event speaks so of the place
      that is current once it is applied. */
  lemma TransitionInScopeExactly(s: Snapshot, ev: Event)
    requires ScopeMatched(s) && Transition(s, ev).Ok?
    ensures ScopeMatched(Transition(s, ev).value) <==> SpeaksFor(Applied(s, ev).value, ev.at, EventNeeds(ev.change))
  {
    hide Applied, EventBinding, EventNeeds, SpeaksFor, ScopeMatched, InScope, WellGated;
    var t := Applied(s, ev).value;
    AppliedInScope(s, ev);
    EventInScopeExactly(t, ev);
    var k, b := Key(EventTarget, ev.id), EventBinding(t, ev);
    if InScope(t, b) {
      BindingInScope(t, k, b);
    } else if ScopeMatched(EventBound(t, ev)) {
      ScopeMatchedAt(EventBound(t, ev), k);
      SameScope(t, EventBound(t, ev), b);
    }
  }

  lemma SameScope(s: Snapshot, t: Snapshot, b: Binding)
    requires s.current == t.current && s.clocks == t.clocks
    ensures InScope(s, b) <==> InScope(t, b)
  {
  }

  /** What a record's declared scope is gated by; no scope means the task's. */
  function ScopeNeeds(scope: ScopeName): Needs {
    GatesOf(NoNeeds, if scope == NoScope then TaskScope else scope)
  }

  /** The gates a binding ends with, and whether a missing repository is filled in for it. */
  function FinalNeeds(b: Binding, extra: Option<ScopeName>): Needs {
    var own := GatesOf(b.needs, if b.scope == NoScope then TaskScope else b.scope);
    if extra.Some? then GatesOf(own, extra.value) else own
  }

  predicate FillsRepo(b: Binding, extra: Option<ScopeName>) {
    b.scope != GlobalScope || (extra.Some? && extra.value != GlobalScope)
  }

  /** The place a binding brings along speaks of the current one in all it will be gated by. */
  predicate PlaceSpeaks(s: Snapshot, b: Binding, extra: Option<ScopeName>) {
    SpeaksFor(s, b.at, FinalNeeds(b, extra)) && (b.needs.repo && !FillsRepo(b, extra) ==> b.at.repo == s.current.repo)
  }

  lemma FinishedInScopeExactly(s: Snapshot, k: Key, b: Binding, extra: Option<ScopeName>)
    requires Finished(s, k, b, extra).Ok?
    ensures var g := Finished(s, k, b, extra).value.value.1;
            InScope(s, g) <==> PlaceSpeaks(s, b, extra)
  {
    hide CapturePaths;
  }

  /** The place that decides a derived record: its event's envelope, a page's own branch first. */
  predicate RecordSpeaks(s: Snapshot, ev: Event, r: Derived) {
    match r
    case ScopedRecord(_, scope) => SpeaksFor(s, ev.at, ScopeNeeds(scope))
    case FailureRecord(_, _) => SpeaksFor(s, ev.at, BranchAndCommit)
    case DecisionRecord(_, scope, _) => SpeaksFor(s, ev.at, ScopeNeeds(scope))
    case PageRecord(_, scope, branch, _) =>
      SpeaksFor(s, ev.at.(branch := FirstNonEmpty(branch, ev.at.branch)), ScopeNeeds(scope))
    case AvoidRecord(_, ref) =>
      var extra := if ev.payloadScope == NoScope then TaskScope else ev.payloadScope;
      (match LogicalBinding(s, ref)
       case None => SpeaksFor(s, ev.at, GatesOf(TaskOnly, extra))
       case Some(grounding) => PlaceSpeaks(s, grounding, Some(extra)))
    case _ => Speaks(ev.at.repo, s.current.repo)
  }

  /** The binding of a derived record starts in scope exactly when that place speaks of the current one. */
  lemma {:induction false} RecordInScopeExactly(s: Snapshot, ev: Event, r: Derived)
    requires DerivedBinding(s, ev, r).Ok? && DerivedBinding(s, ev, r).value.Some?
    ensures InScope(s, DerivedBinding(s, ev, r).value.value.1) <==> RecordSpeaks(s, ev, r)
  {
    hide Finished, InScope, SupportedScope, LogicalBinding;
    match r
    case TaskRecord(id, branch, commit) =>
      var b := Fresh(s, ev, TaskScope);
      FinishedInScopeExactly(s, Key(RecordTarget, id), b.(at := b.at.(branch := branch, commit := commit)), None);
    case ScopedRecord(id, scope) => FinishedInScopeExactly(s, Key(RecordTarget, id), Fresh(s, ev, scope), None);
    case FailureRecord(id, file) =>
      FinishedInScopeExactly(s, Key(RecordTarget, id),
                             Fresh(s, ev, BranchScope).(needs := NoNeeds.(commit := true), paths := if file != "" then [file] else []), None);
    case DecisionRecord(id, scope, refs) =>
      FinishedInScopeExactly(s, Key(RecordTarget, id), Fresh(s, ev, scope).(refs := refs.value), None);
    case PageRecord(id, scope, branch, refs) =>
      var b := Fresh(s, ev, scope);
      FinishedInScopeExactly(s, Key(PageTarget, id), b.(refs := refs.value, at := b.at.(branch := FirstNonEmpty(branch, b.at.branch))), None);
    case AvoidRecord(id, ref) =>
      var extra := if ev.payloadScope == NoScope then TaskScope else ev.payloadScope;
      FinishedInScopeExactly(s, Key(RecordTarget, id), AvoidBinding(s, ev, ref), Some(extra));
    case PlainRecord(id) => FinishedInScopeExactly(s, Key(RecordTarget, id), Fresh(s, ev, TaskScope), None);
  }

  /** A command's own binding is active from the start, and in scope exactly when its envelope speaks
      of the current place. */
  lemma CommandInScopeExactly(s: Snapshot, ev: Event)
    requires ev.change.CommandRan? && ev.id != ""
    ensures var b := Transition(s, ev).value.bindings[Key(EventTarget, ev.id)];
            b.mark.status == Active && (InScope(s, b) <==> SpeaksOfCurrent(s, ev.at))
  {
    hide CapturePaths;
  }

  /** When a command's binding, out of scope or not, may be used in some later state that still holds
      it as it was bound: when the place it names is current there with the epochs it captured.  An
      epoch captured before the place was ever entered reads as zero and is not compared. */
  lemma CommandUsableExactly(s: Snapshot, ev: Event, t: Snapshot)
    requires ev.change.CommandRan? && ev.hintedFile == ""
    requires var k := Key(EventTarget, ev.id); k in t.bindings && t.bindings[k] == EventBinding(s, ev)
    ensures var at := SpokenPlace(s, ev.at);
            var branch, commit := BranchKey(at.repo, at.branch), CommitKey(at.repo, at.branch, at.commit);
            Eligible(t, Key(EventTarget, ev.id)) <==>
              && at == at.(repo := t.current.repo, branch := t.current.branch, commit := t.current.commit)
              && EpochOf(s.clocks.branches, branch) in {0, EpochOf(t.clocks.branches, branch)}
              && EpochOf(s.clocks.commits, commit) in {0, EpochOf(t.clocks.commits, commit)}
  {
    hide EventBinding, TerminalOverlap, EpochOf;
    var k := Key(EventTarget, ev.id);
    CommandBindingShape(s, ev);
    assert RefsEligible(t, [], {} + {k});
    assert Eligible(t, k) == LocallyEligible(t, k);
  }

  lemma CommandBindingShape(s: Snapshot, ev: Event)
    requires ev.change.CommandRan? && ev.hintedFile == ""
    ensures var b, at := EventBinding(s, ev), SpokenPlace(s, ev.at);
            && b.at == at.(task := "") && b.needs == BranchAndCommit && b.mark == NoMark && b.paths == [] && b.refs == []
            && b.epochs.branch == EpochOf(s.clocks.branches, BranchKey(at.repo, at.branch))
            && b.epochs.commit == EpochOf(s.clocks.commits, CommitKey(at.repo, at.branch, at.commit))
  {
    hide CapturePaths, EpochOf;
  }

  /** The same of a branch-scoped page record that names a branch. */
  lemma PageInScopeExactly(s: Snapshot, ev: Event, id: string, branch: string, refs: seq<string>)
    requires SpeaksOfCurrent(s, ev.at)
    ensures var d := DerivedBinding(s, ev, PageRecord(id, BranchScope, branch, Some(refs)));
            d.Ok? && d.value.Some? && d.value.value.1.mark.status == Active
            && (InScope(s, d.value.value.1) <==> Speaks(branch, s.current.branch))
  {
    hide CapturePaths;
    SpokenIsCurrent(s, ev.at);
  }
}
