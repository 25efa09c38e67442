/** What every event keeps true of the known paths and of the epochs bindings were captured at. */
module PathHistory {
  import opened Paths
  import opened Snapshots
  import opened Eligibility
  import opened Cascade
  import opened Transitions

  ghost predicate KnownHaveEpochs(s: Snapshot) {
    forall k :: k in s.known ==> EpochOf(s.clocks.paths, k) != 0
  }

  ghost predicate Dead(s: Snapshot, k: PathKey) {
    k in s.known && s.known[k].mark.status == Invalidated
  }

  ghost predicate Beneath(j: PathKey, k: PathKey) {
    j.repo == k.repo && j.branch == k.branch && PathWithin(j.path, k.path)
  }

  /** Everything known beneath an invalidated path is invalidated too. */
  ghost predicate DeadClosed(s: Snapshot) {
    forall k, j :: Dead(s, k) && j in s.known && Beneath(j, k) ==> Dead(s, j)
  }

  /** An active binding was captured at the present epoch of each of its paths. */
  ghost predicate ActiveAreCurrent(s: Snapshot) {
    forall k :: k in s.bindings && s.bindings[k].mark.status == Active ==> PathsCurrent(s.bindings[k], s.clocks)
  }

  ghost predicate Truthful(s: Snapshot) {
    KnownHaveEpochs(s) && DeadClosed(s) && ActiveAreCurrent(s)
  }

  /** An invalidated path keeps its whole state. */
  ghost predicate DeadStay(s: Snapshot, t: Snapshot) {
    forall k :: Dead(s, k) ==> k in t.known && t.known[k] == s.known[k]
  }

  ghost predicate Keeps(s: Snapshot, t: Snapshot) {
    Truthful(t) && DeadStay(s, t)
  }

  // ---- filters ----

  lemma StalingKeeps(s: Snapshot, m: Match)
    requires ActiveAreCurrent(s)
    ensures ActiveAreCurrent(StaleMatching(s, m))
  {
    hide PathsCurrent, Hits;
    var t := StaleMatching(s, m);
    forall k | k in t.bindings && t.bindings[k].mark.status == Active
      ensures PathsCurrent(t.bindings[k], t.clocks)
    {
      assert t.bindings[k] == s.bindings[k];
    }
  }

  /** Bindings and path epochs are all that matters to being current. */
  lemma SamePathEpochs(s: Snapshot, t: Snapshot)
    requires ActiveAreCurrent(s) && t.bindings == s.bindings && t.clocks.paths == s.clocks.paths
    ensures ActiveAreCurrent(t)
  {
  }

  lemma SameKnown(s: Snapshot, t: Snapshot)
    requires Truthful(s) && t.known == s.known && t.clocks.paths == s.clocks.paths && ActiveAreCurrent(t)
    ensures Keeps(s, t)
  {
    hide PathsCurrent, PathWithin;
    assert forall k :: Dead(t, k) <==> Dead(s, k);
  }

  /** What entering a scope does not touch. */
  lemma EnteringKeepsPaths(c: Clocks, at: Place)
    ensures EnterScope(c, at).paths == c.paths && EnterBranch(c, at).paths == c.paths && EnterCommit(c, at).paths == c.paths
  {
  }

  // ---- scope transitions ----

  lemma StartTaskKeeps(s: Snapshot, ev: Event)
    requires Truthful(s) && ev.change.TaskStarted?
    ensures Keeps(s, StartTask(s, ev))
  {
    hide PathsCurrent, Truthful, StaledBindings, EnterScope, ActiveAreCurrent;
    var left := if s.current.repo != ev.at.repo then StaleMatching(s, NotGlobal) else s;
    assert ActiveAreCurrent(s) by { TruthfulParts(s); }
    StalingKeeps(s, NotGlobal);
    StalingKeeps(left, TaskBound);
    var closed := StaleMatching(left, TaskBound);
    var entered := closed.(current := TaskPlace(ev), clocks := EnterScope(s.clocks, TaskPlace(ev)));
    EnteringKeepsPaths(s.clocks, TaskPlace(ev));
    SamePathEpochs(closed, entered);
    StalingKeeps(entered, OutOfScope(entered.current, entered.clocks));
    SameKnown(s, StartTask(s, ev));
  }

  lemma TruthfulParts(s: Snapshot)
    requires Truthful(s)
    ensures KnownHaveEpochs(s) && DeadClosed(s) && ActiveAreCurrent(s)
  {
  }

  lemma ChangeBranchKeeps(s: Snapshot, ev: Event)
    requires Truthful(s) && ev.change.BranchChange? && ChangeBranch(s, ev).Ok?
    ensures Keeps(s, ChangeBranch(s, ev).value)
  {
    hide PathsCurrent, Truthful, StaledBindings, EnterBranch, ActiveAreCurrent;
    TruthfulParts(s);
    var at := Place(ev.at.repo, s.current.task, ev.at.branch, ev.at.commit);
    var entered := s.(current := at, clocks := EnterBranch(s.clocks, at));
    EnteringKeepsPaths(s.clocks, at);
    SamePathEpochs(s, entered);
    StalingKeeps(entered, OutOfScopeInRepo(ev.at.repo, at, entered.clocks));
    SameKnown(s, ChangeBranch(s, ev).value);
  }

  lemma ChangeCommitKeeps(s: Snapshot, ev: Event)
    requires Truthful(s) && ev.change.CommitChange? && ChangeCommit(s, ev).Ok?
    ensures Keeps(s, ChangeCommit(s, ev).value)
  {
    hide PathsCurrent, StaledBindings, EnterCommit, ActiveAreCurrent, PathWithin;
    var at := s.current.(commit := ev.at.commit);
    var entered := s.(current := at, clocks := EnterCommit(s.clocks, at), known := StaledPaths(s.known, ev.at));
    EnteringKeepsPaths(s.clocks, at);
    SamePathEpochs(s, entered);
    StalingKeeps(entered, OutOfScopeInBranch(ev.at.repo, ev.at.branch, at, entered.clocks));
    var t := ChangeCommit(s, ev).value;
    assert forall k :: Dead(t, k) <==> Dead(s, k);
  }

  // ---- files ----

  lemma OverlapIsTerminal(s: Snapshot, j: PathKey, k: PathKey)
    requires Dead(s, k) && (Beneath(j, k) || Beneath(k, j))
    ensures TerminalOverlap(s.known, j.repo, j.branch, j.path)
  {
    hide PathWithin;
    assert PathsOverlap(j.path, k.path);
  }

  /** A path that overlaps nothing invalidated can be installed. */
  lemma InstallingKeeps(s: Snapshot, k: PathKey, p: PathState, clocks: Clocks)
    requires DeadClosed(s) && !TerminalOverlap(s.known, k.repo, k.branch, k.path) && p.mark.status != Invalidated
    ensures var t := s.(known := s.known[k := p], clocks := clocks); DeadClosed(t) && DeadStay(s, t)
  {
    hide TerminalOverlap, PathWithin;
    var t := s.(known := s.known[k := p], clocks := clocks);
    forall d | Dead(s, d)
      ensures d != k && !Beneath(k, d)
    {
      if Beneath(k, d) || d == k {
        assert Beneath(k, d) by { assert PathWithin(k.path, k.path) by { WithinItself(k.path); } }
        OverlapIsTerminal(s, k, d);
      }
    }
    assert forall d :: Dead(t, d) <==> Dead(s, d);
  }

  lemma WithinItself(p: string)
    ensures PathWithin(p, p) && PathsOverlap(p, p)
  {
  }

  /** Staling what touches the roots keeps the rest current, whatever happens to those epochs. */
  lemma TouchedAreStaled(s: Snapshot, clocks: Clocks, repo: string, branch: string, roots: seq<string>)
    requires ActiveAreCurrent(s)
    requires forall k :: EpochOf(clocks.paths, k) != EpochOf(s.clocks.paths, k) ==>
               k.repo == repo && k.branch == branch && exists r :: r in roots && PathsOverlap(k.path, r)
    ensures ActiveAreCurrent(StaleMatching(s.(clocks := clocks), Touching(repo, branch, roots)))
  {
    hide EpochOf, PathsOverlap;
    var t := StaleMatching(s.(clocks := clocks), Touching(repo, branch, roots));
    forall k | k in t.bindings && t.bindings[k].mark.status == Active
      ensures PathsCurrent(t.bindings[k], t.clocks)
    {
      var b := s.bindings[k];
      assert t.bindings[k] == b && !Hits(Touching(repo, branch, roots), b);
      assert PathsCurrent(b, s.clocks);
    }
  }

  lemma SnapshotFileKeeps(s: Snapshot, ev: Event)
    requires Truthful(s) && ev.change.FileSnapshot? && SnapshotFile(s, ev).Ok?
    ensures Keeps(s, SnapshotFile(s, ev).value)
  {
    hide StaledBindings, ActiveAreCurrent, DeadClosed, DeadStay, TerminalOverlap, PathWithin;
    var k := PathKey(ev.at.repo, ev.at.branch, ev.change.path);
    var clocks := SnapshotClocks(s, ev);
    var t := SnapshotFile(s, ev).value;
    WithinItself(k.path);
    assert forall j :: j != k ==> EpochOf(clocks.paths, j) == EpochOf(s.clocks.paths, j);
    TouchedAreStaled(s, clocks, ev.at.repo, ev.at.branch, [ev.change.path]);
    if EpochOf(clocks.paths, k) == EpochOf(s.clocks.paths, k) {
      UnchangedEpochs(s, clocks);
    }
    var staled := t.(known := s.known);
    SamePathEpochs(staled, t);
    InstallingKeeps(s, k, t.known[k], clocks);
    BindingsDoNotMatter(s.(known := t.known, clocks := clocks), t);
    assert KnownHaveEpochs(t) by { EpochsPositive(s, ev); }
  }

  lemma UnchangedEpochs(s: Snapshot, clocks: Clocks)
    requires ActiveAreCurrent(s) && forall k :: EpochOf(clocks.paths, k) == EpochOf(s.clocks.paths, k)
    ensures ActiveAreCurrent(s.(clocks := clocks))
  {
    hide EpochOf;
  }

  lemma BindingsDoNotMatter(s: Snapshot, t: Snapshot)
    requires s.known == t.known
    ensures DeadClosed(s) == DeadClosed(t)
    ensures forall k :: Dead(s, k) == Dead(t, k)
    ensures forall r :: DeadStay(r, s) == DeadStay(r, t)
  {
    hide PathWithin;
    assert forall k :: Dead(s, k) == Dead(t, k);
  }

  lemma EpochsPositive(s: Snapshot, ev: Event)
    requires KnownHaveEpochs(s) && ev.change.FileSnapshot?
    ensures var clocks := SnapshotClocks(s, ev);
            EpochOf(clocks.paths, PathKey(ev.at.repo, ev.at.branch, ev.change.path)) != 0
            && forall k :: k in s.known ==> EpochOf(clocks.paths, k) != 0
  {
  }

  // ---- renames ----

  ghost predicate SameDead(s: Snapshot, t: Snapshot) {
    forall k :: Dead(s, k) <==> Dead(t, k)
  }

  /** A live known path may change into another live state. */
  lemma ReplacingKeeps(s: Snapshot, k: PathKey, p: PathState, clocks: Clocks)
    requires DeadClosed(s) && k in s.known && !Dead(s, k) && p.mark.status != Invalidated
    ensures var t := s.(known := s.known[k := p], clocks := clocks); DeadClosed(t) && DeadStay(s, t) && SameDead(s, t)
  {
    hide PathWithin;
    var t := s.(known := s.known[k := p], clocks := clocks);
    assert forall d :: Dead(t, d) <==> Dead(s, d);
  }

  ghost predicate Movable(s: Snapshot, k: PathKey) {
    k in s.known || !TerminalOverlap(s.known, k.repo, k.branch, k.path)
  }

  lemma RenamePathKeeps(s: Snapshot, ev: Event, path: string)
    requires KnownHaveEpochs(s) && DeadClosed(s) && Movable(s, PathKey(ev.at.repo, ev.at.branch, path))
    ensures var t := RenamePath(s, ev, path);
            && KnownHaveEpochs(t) && DeadClosed(t) && DeadStay(s, t) && SameDead(s, t)
            && PathKey(ev.at.repo, ev.at.branch, path) in t.known && s.known.Keys <= t.known.Keys
  {
    hide TerminalOverlap, PathWithin, DeadClosed, DeadStay;
    var k := PathKey(ev.at.repo, ev.at.branch, path);
    var t := RenamePath(s, ev, path);
    if k in s.known {
      if Dead(s, k) {
        assert DeadStay(s, s) by { StayReflexive(s); }
      } else {
        ReplacingKeeps(s, k, t.known[k], t.clocks);
      }
    } else {
      InstallingKeeps(s, k, t.known[k], t.clocks);
      assert SameDead(s, t);
    }
  }

  lemma StayReflexive(s: Snapshot)
    ensures DeadStay(s, s)
  {
  }

  lemma TerminalIsDead(s: Snapshot, t: Snapshot, repo: string, branch: string, path: string)
    requires SameDead(s, t)
    ensures TerminalOverlap(s.known, repo, branch, path) == TerminalOverlap(t.known, repo, branch, path)
  {
    hide PathsOverlap;
    if k :| Dead(s, k) && k.repo == repo && k.branch == branch && PathsOverlap(path, k.path) { assert Dead(t, k); }
    if k :| Dead(t, k) && k.repo == repo && k.branch == branch && PathsOverlap(path, k.path) { assert Dead(s, k); }
  }

  lemma StayTransitive(s: Snapshot, m: Snapshot, t: Snapshot)
    requires DeadStay(s, m) && DeadStay(m, t)
    ensures DeadStay(s, t)
  {
  }

  lemma {:induction false} RenamePathsKeep(s: Snapshot, ev: Event, paths: seq<string>)
    requires KnownHaveEpochs(s) && DeadClosed(s)
    requires forall p :: p in paths ==> Movable(s, PathKey(ev.at.repo, ev.at.branch, p))
    ensures var t := RenamePaths(s, ev, paths);
            && KnownHaveEpochs(t) && DeadClosed(t) && DeadStay(s, t) && SameDead(s, t)
            && s.known.Keys <= t.known.Keys
            && forall p :: p in paths ==> PathKey(ev.at.repo, ev.at.branch, p) in t.known
    decreases |paths|
  {
    hide TerminalOverlap, PathWithin, DeadClosed, DeadStay, Dead, RenamePath, KnownHaveEpochs;
    if paths == [] {
      StayReflexive(s);
    } else {
      RenamePathKeeps(s, ev, paths[0]);
      var m := RenamePath(s, ev, paths[0]);
      forall p | p in paths[1..]
        ensures Movable(m, PathKey(ev.at.repo, ev.at.branch, p))
      {
        TerminalIsDead(s, m, ev.at.repo, ev.at.branch, p);
      }
      RenamePathsKeep(m, ev, paths[1..]);
      StayTransitive(s, m, RenamePaths(s, ev, paths));
      assert paths == [paths[0]] + paths[1..];
    }
  }

  /** A rename moves the epochs of its own paths only, and no binding. */
  lemma {:induction false} RenamePathsFrame(s: Snapshot, ev: Event, paths: seq<string>)
    ensures var t := RenamePaths(s, ev, paths);
            && t.bindings == s.bindings && t.current == s.current && t.revision == s.revision
            && t.clocks.branches == s.clocks.branches && t.clocks.commits == s.clocks.commits
            && forall k :: EpochOf(t.clocks.paths, k) != EpochOf(s.clocks.paths, k) ==>
                 k.repo == ev.at.repo && k.branch == ev.at.branch && k.path in paths
    decreases |paths|
  {
    if paths != [] {
      RenamePathsFrame(RenamePath(s, ev, paths[0]), ev, paths[1..]);
      assert paths == [paths[0]] + paths[1..];
    }
  }

  lemma RenamedKeeps(s: Snapshot, ev: Event, affected: seq<string>)
    requires Truthful(s) && ev.change.FileRenamed?
    requires !TerminalOverlap(s.known, ev.at.repo, ev.at.branch, ev.change.from)
    requires !TerminalOverlap(s.known, ev.at.repo, ev.at.branch, ev.change.to)
    requires Lists(affected, RenameAffects(s, ev.at, ev.change.from, ev.change.to))
    ensures Keeps(s, Renamed(s, ev, affected))
  {
    hide TerminalOverlap, PathWithin, DeadClosed, DeadStay, StaledBindings, PathsCurrent, PathsOverlap;
    var from, to := ev.change.from, ev.change.to;
    AffectedAreMovable(s, ev, affected);
    RenamePathsKeep(s, ev, affected);
    RenamePathsFrame(s, ev, affected);
    var moved := RenamePaths(s, ev, affected);
    var t := Renamed(s, ev, affected);
    var k := PathKey(ev.at.repo, ev.at.branch, to);
    TerminalIsDead(s, moved, ev.at.repo, ev.at.branch, to);
    InstallingKeeps(moved, k, t.known[k], moved.clocks);
    assert to in affected;
    StayTransitive(s, moved, moved.(known := t.known));
    BindingsDoNotMatter(moved.(known := t.known), t);
    AffectedOverlap(s, ev, affected);
    TouchedAreStaled(s, moved.clocks, ev.at.repo, ev.at.branch, [from, to]);
    SamePathEpochs(StaleMatching(s.(clocks := moved.clocks), Touching(ev.at.repo, ev.at.branch, [from, to])), t);
    assert KnownHaveEpochs(t);
  }

  lemma AffectedAreMovable(s: Snapshot, ev: Event, affected: seq<string>)
    requires ev.change.FileRenamed?
    requires !TerminalOverlap(s.known, ev.at.repo, ev.at.branch, ev.change.from)
    requires !TerminalOverlap(s.known, ev.at.repo, ev.at.branch, ev.change.to)
    requires Lists(affected, RenameAffects(s, ev.at, ev.change.from, ev.change.to))
    ensures forall p :: p in affected ==> Movable(s, PathKey(ev.at.repo, ev.at.branch, p))
  {
    hide TerminalOverlap, PathsOverlap;
  }

  lemma AffectedOverlap(s: Snapshot, ev: Event, affected: seq<string>)
    requires ev.change.FileRenamed?
    requires Lists(affected, RenameAffects(s, ev.at, ev.change.from, ev.change.to))
    ensures forall p :: p in affected ==> exists r :: r in [ev.change.from, ev.change.to] && PathsOverlap(p, r)
  {
    hide PathsOverlap;
    var roots := [ev.change.from, ev.change.to];
    assert ev.change.from == roots[0] && ev.change.to == roots[1];
    WithinItself(ev.change.from);
    WithinItself(ev.change.to);
    assert ev.change.from in roots && ev.change.to in roots;
  }

  lemma RenameFileKeeps(s: Snapshot, ev: Event)
    requires Truthful(s) && ev.change.FileRenamed? && RenameFile(s, ev).Ok?
    ensures Keeps(s, RenameFile(s, ev).value)
  {
    hide Truthful, Keeps, Renamed, TerminalOverlap, RenameAffects;
    RenamedKeeps(s, ev, SortedListing(RenameAffects(s, ev.at, ev.change.from, ev.change.to)));
  }

  // ---- invalidation ----

  /** What invalidating some paths of the current branch does, and to what. */
  ghost predicate PathsInvalidated(s: Snapshot, t: Snapshot, paths: seq<string>) {
    var at := s.current;
    && t.bindings == s.bindings && t.current == s.current && t.revision == s.revision
    && t.clocks.branches == s.clocks.branches && t.clocks.commits == s.clocks.commits
    && t.known.Keys == s.known.Keys
    && DeadStay(s, t)
    && (forall p :: p in paths && PathKey(at.repo, at.branch, p) in s.known ==> Dead(t, PathKey(at.repo, at.branch, p)))
    && (forall k :: Dead(t, k) ==> Dead(s, k) || (k.repo == at.repo && k.branch == at.branch && k.path in paths))
    && (forall k :: EpochOf(s.clocks.paths, k) != 0 ==> EpochOf(t.clocks.paths, k) != 0)
    && (forall k :: EpochOf(t.clocks.paths, k) != EpochOf(s.clocks.paths, k) ==>
          k.repo == at.repo && k.branch == at.branch && k.path in paths)
  }

  lemma InvalidatePathEffect(s: Snapshot, ev: Event, reason: Reason, path: string)
    ensures PathsInvalidated(s, InvalidatePath(s, ev, reason, path), [path])
  {
  }

  lemma InvalidationsCompose(s: Snapshot, m: Snapshot, t: Snapshot, a: seq<string>, b: seq<string>)
    requires PathsInvalidated(s, m, a) && PathsInvalidated(m, t, b)
    ensures PathsInvalidated(s, t, a + b)
  {
    hide EpochOf;
  }

  lemma {:induction false} InvalidatePathsEffect(s: Snapshot, ev: Event, reason: Reason, paths: seq<string>)
    ensures PathsInvalidated(s, InvalidatePaths(s, ev, reason, paths), paths)
    decreases |paths|
  {
    if paths != [] {
      hide InvalidatePath, PathsInvalidated;
      var m := InvalidatePath(s, ev, reason, paths[0]);
      InvalidatePathEffect(s, ev, reason, paths[0]);
      InvalidatePathsEffect(m, ev, reason, paths[1..]);
      assert paths == [paths[0]] + paths[1..];
      InvalidationsCompose(s, m, InvalidatePaths(m, ev, reason, paths[1..]), [paths[0]], paths[1..]);
    }
  }

  lemma InvalidatedRegionIsClosed(s: Snapshot, ev: Event, reason: Reason, root: string, paths: seq<string>)
    requires DeadClosed(s) && Lists(paths, PathsBelow(s, s.current, root))
    ensures DeadClosed(InvalidatePaths(s, ev, reason, paths))
  {
    hide InvalidatePaths, PathWithin, DeadStay;
    InvalidatePathsEffect(s, ev, reason, paths);
    var t := InvalidatePaths(s, ev, reason, paths);
    forall k, j | Dead(t, k) && j in t.known && Beneath(j, k)
      ensures Dead(t, j)
    {
      if Dead(s, k) {
        assert Dead(s, j);
        assert DeadStay(s, t);
        StaysDead(s, t, j);
      } else {
        assert k.path in paths;
        BelowIsClosed(s, root, k, j);
        assert j.path in paths;
      }
    }
  }

  lemma StaysDead(s: Snapshot, t: Snapshot, k: PathKey)
    requires DeadStay(s, t) && Dead(s, k)
    ensures Dead(t, k)
  {
  }

  lemma BelowIsClosed(s: Snapshot, root: string, k: PathKey, j: PathKey)
    requires k.repo == s.current.repo && k.branch == s.current.branch && k.path in PathsBelow(s, s.current, root)
    requires j in s.known && Beneath(j, k)
    ensures j.path in PathsBelow(s, s.current, root)
  {
    hide PathWithin;
    PathWithinTransitive(j.path, k.path, root);
    assert j == PathKey(s.current.repo, s.current.branch, j.path);
  }

  /** Active after invalidation means untouched by it. */
  lemma StillActive(bindings: Bindings, root: string, reason: Reason, k: Key)
    requires k in InvalidateTouching(bindings, root, reason) && InvalidateTouching(bindings, root, reason)[k].mark.status == Active
    ensures k in bindings && InvalidateTouching(bindings, root, reason)[k] == bindings[k]
    ensures forall p :: p in bindings[k].paths ==> !PathsOverlap(p, root)
  {
    hide ReachedSet, PathsOverlap, IdsOf;
    assert k !in LiveHits(bindings, TouchingAnywhere(root));
    assert bindings[k].mark.status == Active;
    assert !Hits(TouchingAnywhere(root), bindings[k]);
  }

  lemma InvalidateFileKeeps(s: Snapshot, ev: Event)
    requires Truthful(s) && ev.change.MemoryInvalidated? && InvalidateFile(s, ev).Ok?
    ensures Keeps(s, InvalidateFile(s, ev).value)
  {
    hide InvalidatePaths, InvalidateTouching, PathWithin, DeadStay, DeadClosed, PathsBelow, PathsCurrent;
    var root, reason := ev.change.target, ev.change.reason;
    var paths := SortedListing(PathsBelow(s, s.current, root));
    var below := InvalidatePaths(s, ev, reason, paths);
    var t := InvalidateFile(s, ev).value;
    InvalidatePathsEffect(s, ev, reason, paths);
    InvalidatedRegionIsClosed(s, ev, reason, root, paths);
    BindingsDoNotMatter(below, t);
    assert KnownHaveEpochs(t);
    forall k | k in t.bindings && t.bindings[k].mark.status == Active
      ensures PathsCurrent(t.bindings[k], t.clocks)
    {
      StillActive(s.bindings, root, reason, k);
      assert PathsCurrent(s.bindings[k], s.clocks);
      OutsideRegionIsCurrent(s, t.clocks, root, s.bindings[k]);
    }
  }

  lemma OutsideRegionIsCurrent(s: Snapshot, clocks: Clocks, root: string, b: Binding)
    requires PathsCurrent(b, s.clocks) && forall p :: p in b.paths ==> !PathsOverlap(p, root)
    requires forall k :: EpochOf(clocks.paths, k) != EpochOf(s.clocks.paths, k) ==> k.path in PathsBelow(s, s.current, root)
    ensures PathsCurrent(b, clocks)
  {
    hide EpochOf;
  }

  lemma InvalidateBindingKeeps(s: Snapshot, ev: Event)
    requires Truthful(s) && ev.change.MemoryInvalidated? && InvalidateBinding(s, ev).Ok?
    ensures Keeps(s, InvalidateBinding(s, ev).value)
  {
    hide ReachedSet, PathsCurrent, DeadClosed, DeadStay;
    var t := InvalidateBinding(s, ev).value;
    assert ActiveAreCurrent(t);
    SameKnown(s, t);
  }

  // ---- revalidation ----

  lemma RevalidateKeeps(s: Snapshot, ev: Event)
    requires Truthful(s) && ev.change.MemoryRevalidated? && Revalidate(s, ev).Ok?
    ensures Keeps(s, Revalidate(s, ev).value)
  {
    hide DeadClosed, DeadStay, EligibleEvidence, PathReady, Captured, PathsCurrent;
    var t := Revalidate(s, ev).value;
    if ev.change.staleKind == PathTarget {
      var k := PathKey(s.current.repo, s.current.branch, ev.change.staleTarget);
      ReplacingKeeps(s, k, t.known[k], t.clocks);
      SamePathEpochs(s, t);
    } else {
      var k := Key(ev.change.staleKind, ev.change.staleTarget);
      var b := s.bindings[k];
      CapturedIsCurrent(b.(mark := Mark(Active, b.mark.revision, NoReason), at := PlaceNeeded(b.needs, s.current)), s.clocks);
      assert ActiveAreCurrent(t);
      SameKnown(s, t);
    }
  }

  // ---- every event, with what is bound after it ----

  lemma AppliedKeeps(s: Snapshot, ev: Event)
    requires Truthful(s) && Applied(s, ev).Ok?
    ensures Keeps(s, Applied(s, ev).value)
  {
    hide Truthful, Keeps, StartTask, ChangeBranch, ChangeCommit, SnapshotFile, RenameFile, InvalidateFile, InvalidateBinding, Revalidate;
    match ev.change
    case TaskStarted(_) => StartTaskKeeps(s, ev);
    case BranchChange(_, _) => ChangeBranchKeeps(s, ev);
    case CommitChange(_) => ChangeCommitKeeps(s, ev);
    case FileSnapshot(_, _) => SnapshotFileKeeps(s, ev);
    case FileRenamed(_, _, _) => RenameFileKeeps(s, ev);
    case MemoryInvalidated(kind, _, _) =>
      if kind == PathTarget { InvalidateFileKeeps(s, ev); } else { InvalidateBindingKeeps(s, ev); }
    case MemoryRevalidated(_, _, _, _, _) => RevalidateKeeps(s, ev);
    case _ => KeepsReflexive(s);
  }

  lemma KeepsReflexive(s: Snapshot)
    requires Truthful(s)
    ensures Keeps(s, s)
  {
    hide Truthful;
    StayReflexive(s);
  }

  /** Binding something freshly captured. */
  lemma BindingKeeps(s: Snapshot, k: Key, b: Binding)
    requires Truthful(s) && PathsCurrent(b, s.clocks)
    ensures Keeps(s, s.(bindings := s.bindings[k := b]))
  {
    hide DeadClosed, DeadStay, PathsCurrent;
    var t := s.(bindings := s.bindings[k := b]);
    assert ActiveAreCurrent(t);
    SameKnown(s, t);
  }

  lemma DerivedIsCaptured(s: Snapshot, ev: Event, r: Derived)
    requires DerivedBinding(s, ev, r).Ok? && DerivedBinding(s, ev, r).value.Some?
    ensures PathsCurrent(DerivedBinding(s, ev, r).value.value.1, s.clocks)
  {
    hide PathsCurrent, Captured, Canonical, AddGates, Fresh, AvoidBinding;
    forall b: Binding
      ensures PathsCurrent(Captured(b, s.clocks), s.clocks)
    {
      CapturedIsCurrent(b, s.clocks);
    }
  }

  lemma {:induction false} BindAllKeeps(s: Snapshot, ev: Event, records: seq<Derived>)
    requires Truthful(s) && BindAll(s, ev, records).Ok?
    ensures Keeps(s, BindAll(s, ev, records).value)
    decreases |records|
  {
    hide Truthful, DeadStay, DerivedBinding, PathsCurrent;
    if records == [] {
      KeepsReflexive(s);
    } else {
      match DerivedBinding(s, ev, records[0])
      case Ok(None) => BindAllKeeps(s, ev, records[1..]);
      case Ok(Some((k, b))) =>
        DerivedIsCaptured(s, ev, records[0]);
        BindingKeeps(s, k, b);
        var m := s.(bindings := s.bindings[k := b]);
        BindAllKeeps(m, ev, records[1..]);
        StayTransitive(s, m, BindAll(s, ev, records).value);
    }
  }

  lemma TaskNamedKeeps(s: Snapshot, ev: Event, records: seq<Derived>)
    requires Truthful(s)
    ensures Keeps(s, TaskNamed(s, ev, records))
  {
    hide DeadClosed, DeadStay, FirstTask;
    var t := TaskNamed(s, ev, records);
    assert ActiveAreCurrent(t);
    SameKnown(s, t);
  }

  lemma EventBoundKeeps(s: Snapshot, ev: Event)
    requires Truthful(s)
    ensures Keeps(s, EventBound(s, ev))
  {
    hide Truthful, Keeps, Captured, PathsCurrent, Canonical, AddGates, Fresh;
    forall b: Binding
      ensures PathsCurrent(Captured(b, s.clocks), s.clocks)
    {
      CapturedIsCurrent(b, s.clocks);
    }
    BindingKeeps(s, Key(EventTarget, ev.id), EventBinding(s, ev));
  }

  /** A committed input keeps the facts, and every path invalidated before it. */
  lemma CommittedKeeps(s: Snapshot, input: Input)
    requires Truthful(s) && Committed(s, input).Ok?
    ensures Keeps(s, Committed(s, input).value)
  {
    hide Truthful, DeadStay, Applied, EventBound, TaskNamed, BindAll;
    var ev := input.event;
    var applied := Applied(s, ev).value;
    AppliedKeeps(s, ev);
    var known := EventBound(applied, ev);
    EventBoundKeeps(applied, ev);
    var named := TaskNamed(known, ev, input.records);
    TaskNamedKeeps(known, ev, input.records);
    BindAllKeeps(named, ev, input.records);
    var bound := BindAll(named, ev, input.records).value;
    StayTransitive(s, applied, known);
    StayTransitive(s, known, named);
    StayTransitive(s, named, bound);
    RevisionDoesNotMatter(s, bound, s.revision + 1);
  }

  lemma RevisionDoesNotMatter(s: Snapshot, t: Snapshot, revision: nat)
    requires Keeps(s, t)
    ensures Keeps(s, t.(revision := revision))
  {
    hide PathsCurrent, PathWithin;
    var u := t.(revision := revision);
    assert forall k :: Dead(u, k) <==> Dead(t, k);
  }

  // ---- over whole runs ----

  /** On every run: active bindings are at the present epochs of their paths, and invalidation of a
      path is final, keeps its state for ever, and covers every path known beneath it. */
  lemma {:induction false} RunKeeps(s: Snapshot, inputs: seq<Input>)
    requires Truthful(s)
    ensures Keeps(s, Run(s, inputs))
    decreases |inputs|
  {
    hide Truthful, DeadStay, Committed;
    if inputs == [] {
      KeepsReflexive(s);
    } else {
      match Committed(s, inputs[0])
      case Err(_) => RunKeeps(s, inputs[1..]);
      case Ok(next) =>
        CommittedKeeps(s, inputs[0]);
        RunKeeps(next, inputs[1..]);
        StayTransitive(s, next, Run(s, inputs));
    }
  }

  lemma EmptyIsTruthful()
    ensures Truthful(Empty)
  {
  }

  /** The same from the empty session, for any two points of a run. */
  lemma {:induction false} PathInvalidationIsTerminal(before: seq<Input>, after: seq<Input>, k: PathKey)
    requires Dead(Run(Empty, before), k)
    ensures var t := Run(Run(Empty, before), after);
            && Dead(t, k) && t.known[k] == Run(Empty, before).known[k]
            && forall j :: j in t.known && Beneath(j, k) ==> Dead(t, j)
  {
    hide Run, Beneath, KnownHaveEpochs, ActiveAreCurrent;
    EmptyIsTruthful();
    RunKeeps(Empty, before);
    RunKeeps(Run(Empty, before), after);
  }

  lemma {:induction false} ActiveMeansCurrent(inputs: seq<Input>, k: Key)
    requires k in Run(Empty, inputs).bindings && Run(Empty, inputs).bindings[k].mark.status == Active
    ensures PathsCurrent(Run(Empty, inputs).bindings[k], Run(Empty, inputs).clocks)
  {
    hide Run, PathsCurrent, DeadClosed, DeadStay, KnownHaveEpochs;
    EmptyIsTruthful();
    RunKeeps(Empty, inputs);
  }
}
