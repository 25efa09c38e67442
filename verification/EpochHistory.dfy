/** Epochs only grow, so a capture that has gone out of date never comes back into date. */
module EpochHistory {
  import opened Paths
  import opened Snapshots
  import opened Transitions
  import opened Eligibility

  ghost predicate Bounded(c: Clocks) {
    && (forall k :: EpochOf(c.repos, k) <= c.now)
    && (forall k :: EpochOf(c.branches, k) <= c.now)
    && (forall k :: EpochOf(c.commits, k) <= c.now)
    && (forall k :: EpochOf(c.paths, k) <= c.now)
    && c.now <= MaxEpoch
  }

  ghost predicate Grown(c: Clocks, d: Clocks) {
    && c.now <= d.now
    && (forall k :: EpochOf(c.repos, k) <= EpochOf(d.repos, k))
    && (forall k :: EpochOf(c.branches, k) <= EpochOf(d.branches, k))
    && (forall k :: EpochOf(c.commits, k) <= EpochOf(d.commits, k))
    && (forall k :: EpochOf(c.paths, k) <= EpochOf(d.paths, k))
  }

  /** An epoch that changed is newer than every earlier one, or the last there is. */
  ghost predicate Renewed(c: Clocks, d: Clocks) {
    && (forall k :: EpochOf(d.repos, k) != EpochOf(c.repos, k) ==> EpochOf(d.repos, k) > c.now || EpochOf(d.repos, k) == MaxEpoch)
    && (forall k :: EpochOf(d.branches, k) != EpochOf(c.branches, k) ==> EpochOf(d.branches, k) > c.now || EpochOf(d.branches, k) == MaxEpoch)
    && (forall k :: EpochOf(d.commits, k) != EpochOf(c.commits, k) ==> EpochOf(d.commits, k) > c.now || EpochOf(d.commits, k) == MaxEpoch)
    && (forall k :: EpochOf(d.paths, k) != EpochOf(c.paths, k) ==> EpochOf(d.paths, k) > c.now || EpochOf(d.paths, k) == MaxEpoch)
  }

  ghost predicate Advances(c: Clocks, d: Clocks) {
    Bounded(d) && Grown(c, d) && Renewed(c, d)
  }

  lemma AdvancesTwice(c: Clocks, m: Clocks, d: Clocks)
    requires Advances(c, m) && Advances(m, d)
    ensures Advances(c, d)
  {
    hide EpochOf;
  }

  lemma AdvancesNowhere(c: Clocks)
    requires Bounded(c)
    ensures Advances(c, c)
  {
  }

  lemma SettingAdvances<K>(m: map<K, nat>, k: K, now: nat, next: nat, after: map<K, nat>)
    requires now <= next && (forall j :: EpochOf(m, j) <= now) && after == m[k := next]
    ensures forall j :: EpochOf(m, j) <= EpochOf(after, j)
    ensures forall j :: EpochOf(after, j) <= next
    ensures forall j :: EpochOf(after, j) != EpochOf(m, j) ==> EpochOf(after, j) == next
  {
    forall j
      ensures EpochOf(m, j) <= EpochOf(after, j) <= next && (EpochOf(after, j) != EpochOf(m, j) ==> EpochOf(after, j) == next)
    {
      assert EpochOf(after, j) == if j == k then next else EpochOf(m, j);
    }
  }

  lemma EnterCommitAdvances(c: Clocks, at: Place)
    requires Bounded(c)
    ensures Advances(c, EnterCommit(c, at))
  {
    hide EpochOf;
    if at.repo != "" && at.branch != "" && at.commit != "" {
      var t := Ticked(c);
      var m := t.(commits := t.commits[CommitKey(at.repo, at.branch, at.commit) := t.now]);
      SettingAdvances(c.commits, CommitKey(at.repo, at.branch, at.commit), c.now, t.now, m.commits);
      assert Advances(c, m);
    } else {
      AdvancesNowhere(c);
    }
  }

  lemma EnterBranchAdvances(c: Clocks, at: Place)
    requires Bounded(c)
    ensures Advances(c, EnterBranch(c, at))
  {
    if at.repo != "" && at.branch != "" {
      var t := Ticked(c);
      var m := t.(branches := t.branches[BranchKey(at.repo, at.branch) := t.now]);
      hide EpochOf;
      SettingAdvances(c.branches, BranchKey(at.repo, at.branch), c.now, t.now, m.branches);
      assert Advances(c, m);
      hide Advances, EnterCommit;
      EnterCommitAdvancesFurther(c, m, at);
    } else {
      EnterCommitAdvances(c, at);
    }
  }

  lemma EnterCommitAdvancesFurther(c: Clocks, m: Clocks, at: Place)
    requires Advances(c, m)
    ensures Advances(c, EnterCommit(m, at))
  {
    hide EnterCommit, Grown, Bounded, Renewed;
    EnterCommitAdvances(m, at);
    AdvancesTwice(c, m, EnterCommit(m, at));
  }

  lemma EnterScopeAdvances(c: Clocks, at: Place)
    requires Bounded(c)
    ensures Advances(c, EnterScope(c, at))
  {
    if at.repo != "" {
      var t := Ticked(c);
      var m := t.(repos := t.repos[at.repo := t.now]);
      hide EpochOf;
      SettingAdvances(c.repos, at.repo, c.now, t.now, m.repos);
      assert Advances(c, m);
      hide EnterBranch, Grown, Bounded, Renewed;
      EnterBranchAdvances(m, at);
      AdvancesTwice(c, m, EnterBranch(m, at));
    } else {
      EnterBranchAdvances(c, at);
    }
  }

  lemma BumpAdvances(c: Clocks, k: PathKey)
    requires Bounded(c)
    ensures Advances(c, BumpPath(c, k)) && Advances(c, EnsurePath(c, k))
  {
    hide EpochOf;
    AdvancesNowhere(c);
    var t := Ticked(c);
    var m := t.(paths := t.paths[k := t.now]);
    SettingAdvances(c.paths, k, c.now, t.now, m.paths);
    assert Advances(c, m);
  }

  /** Before the clock is exhausted, a bump exceeds every epoch handed out so far. */
  lemma BumpIsFresh(c: Clocks, k: PathKey)
    requires Bounded(c) && c.now < MaxEpoch
    ensures EpochOf(BumpPath(c, k).paths, k) > c.now
    ensures forall j :: EpochOf(BumpPath(c, k).paths, k) > EpochOf(c.paths, j)
  {
  }

  lemma {:induction false} RenamePathsAdvance(s: Snapshot, ev: Event, paths: seq<string>)
    requires Bounded(s.clocks)
    ensures Advances(s.clocks, RenamePaths(s, ev, paths).clocks)
    decreases |paths|
  {
    hide Bounded, Grown, Renewed, BumpPath;
    AdvancesNowhere(s.clocks);
    if paths != [] {
      var m := RenamePath(s, ev, paths[0]);
      BumpAdvances(s.clocks, PathKey(ev.at.repo, ev.at.branch, paths[0]));
      RenamePathsAdvance(m, ev, paths[1..]);
      AdvancesTwice(s.clocks, m.clocks, RenamePaths(m, ev, paths[1..]).clocks);
    }
  }

  lemma {:induction false} InvalidatePathsAdvance(s: Snapshot, ev: Event, reason: Reason, paths: seq<string>)
    requires Bounded(s.clocks)
    ensures Advances(s.clocks, InvalidatePaths(s, ev, reason, paths).clocks)
    decreases |paths|
  {
    hide Bounded, Grown, Renewed, BumpPath;
    AdvancesNowhere(s.clocks);
    if paths != [] {
      var m := InvalidatePath(s, ev, reason, paths[0]);
      BumpAdvances(s.clocks, PathKey(s.current.repo, s.current.branch, paths[0]));
      InvalidatePathsAdvance(m, ev, reason, paths[1..]);
      AdvancesTwice(s.clocks, m.clocks, InvalidatePaths(m, ev, reason, paths[1..]).clocks);
    }
  }

  lemma SnapshotAdvances(s: Snapshot, ev: Event)
    requires Bounded(s.clocks) && ev.change.FileSnapshot?
    ensures Advances(s.clocks, SnapshotClocks(s, ev))
  {
    hide Bounded, Grown, Renewed, BumpPath;
    var k := PathKey(ev.at.repo, ev.at.branch, ev.change.path);
    var ensured := EnsurePath(s.clocks, k);
    BumpAdvances(s.clocks, k);
    BumpAdvances(ensured, k);
    AdvancesTwice(s.clocks, ensured, BumpPath(ensured, k));
  }

  lemma AppliedAdvances(s: Snapshot, ev: Event)
    requires Bounded(s.clocks) && Applied(s, ev).Ok?
    ensures Advances(s.clocks, Applied(s, ev).value.clocks)
  {
    hide Bounded, Grown, Renewed, EnterScope, EnterBranch, EnterCommit, BumpPath, EnsurePath, SnapshotClocks, RenamePaths, InvalidatePaths,
      StaledBindings, InvalidateTouching, EligibleEvidence, RenameAffects, PathsBelow, TerminalOverlap, StaledPaths;
    AdvancesNowhere(s.clocks);
    match ev.change
    case TaskStarted(_) => EnterScopeAdvances(s.clocks, TaskPlace(ev));
    case BranchChange(_, _) => EnterBranchAdvances(s.clocks, Place(ev.at.repo, s.current.task, ev.at.branch, ev.at.commit));
    case CommitChange(_) => EnterCommitAdvances(s.clocks, s.current.(commit := ev.at.commit));
    case FileSnapshot(_, _) => SnapshotAdvances(s, ev);
    case FileRenamed(from, to, _) => RenamePathsAdvance(s, ev, SortedListing(RenameAffects(s, ev.at, from, to)));
    case MemoryInvalidated(kind, target, reason) =>
      if kind == PathTarget { InvalidatePathsAdvance(s, ev, reason, SortedListing(PathsBelow(s, s.current, target))); }
    case MemoryRevalidated(_, target, _, _, _) => BumpAdvances(s.clocks, PathKey(s.current.repo, s.current.branch, target));
    case _ =>
  }

  lemma {:induction false} BindAllKeepsClocks(s: Snapshot, ev: Event, records: seq<Derived>)
    requires BindAll(s, ev, records).Ok?
    ensures BindAll(s, ev, records).value.clocks == s.clocks
    decreases |records|
  {
    hide DerivedBinding;
    if records != [] {
      match DerivedBinding(s, ev, records[0])
      case Ok(None) => BindAllKeepsClocks(s, ev, records[1..]);
      case Ok(Some((k, b))) => BindAllKeepsClocks(s.(bindings := s.bindings[k := b]), ev, records[1..]);
    }
  }

  lemma CommittedAdvances(s: Snapshot, input: Input)
    requires Bounded(s.clocks) && Committed(s, input).Ok?
    ensures Advances(s.clocks, Committed(s, input).value.clocks)
    ensures Committed(s, input).value.revision == s.revision + 1
  {
    hide Bounded, Grown, Renewed, Applied, EventBinding, BindAll, FirstTask;
    AppliedAdvances(s, input.event);
    var known := EventBound(Applied(s, input.event).value, input.event);
    BindAllKeepsClocks(TaskNamed(known, input.event, input.records), input.event, input.records);
  }

  lemma {:induction false} RunAdvances(s: Snapshot, inputs: seq<Input>)
    requires Bounded(s.clocks)
    ensures Advances(s.clocks, Run(s, inputs).clocks)
    decreases |inputs|
  {
    hide Bounded, Grown, Renewed, Committed;
    if inputs == [] {
      AdvancesNowhere(s.clocks);
    } else {
      match Committed(s, inputs[0])
      case Err(_) => RunAdvances(s, inputs[1..]);
      case Ok(next) =>
        CommittedAdvances(s, inputs[0]);
        RunAdvances(next, inputs[1..]);
        AdvancesTwice(s.clocks, next.clocks, Run(next, inputs[1..]).clocks);
    }
  }

  /** A capture current at two points of a run was current at every point between them. */
  lemma {:induction false} NoEpochComesBack(s: Snapshot, first: seq<Input>, second: seq<Input>, b: Binding)
    requires Bounded(s.clocks)
    requires PathsCurrent(b, s.clocks) && PathsCurrent(b, Run(Run(s, first), second).clocks)
    ensures PathsCurrent(b, Run(s, first).clocks)
  {
    hide Run, EpochOf;
    RunAdvances(s, first);
    RunAdvances(Run(s, first), second);
    var mid, end := Run(s, first).clocks, Run(Run(s, first), second).clocks;
    forall p | p in b.paths
      ensures b.epochs.paths[p] == EpochOf(mid.paths, PathKey(b.at.repo, b.at.branch, p))
    {
      var k := PathKey(b.at.repo, b.at.branch, p);
      assert EpochOf(s.clocks.paths, k) <= EpochOf(mid.paths, k) <= EpochOf(end.paths, k);
    }
  }
}
