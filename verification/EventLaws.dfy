/** What each event is accepted for and leaves behind. */
module EventLaws {
  import opened Paths
  import opened Snapshots
  import opened Eligibility
  import opened Cascade
  import opened Transitions

  // Told from the two snapshots alone.

  // The relations below name marks, epochs and keys, and none of the functions that compute them.

  // ---- how one binding or path may change ----

  predicate OneUp(before: nat, after: nat) {
    after == if before == MaxEpoch then before else before + 1
  }

  /** Active before, stale now, one revision further, and otherwise as it was. */
  predicate WentStale(b: Binding, c: Binding) {
    && b.mark.status == Active && c.mark.status == Stale && c.mark.reason == b.mark.reason
    && OneUp(b.mark.revision, c.mark.revision)
    && c == b.(mark := c.mark)
  }

  /** Live before, invalid now for this reason, one revision further, and otherwise as it was. */
  predicate WentInvalid(b: Binding, c: Binding, reason: Reason) {
    && b.mark.status != Invalidated && c.mark.status == Invalidated && c.mark.reason == reason
    && OneUp(b.mark.revision, c.mark.revision)
    && c == b.(mark := c.mark)
  }

  /** Exactly the active bindings the condition picks went stale; the others are untouched. */
  ghost predicate StaledWhere(s: Snapshot, t: Snapshot, picked: Binding -> bool) {
    && t.bindings.Keys == s.bindings.Keys
    && forall k :: k in s.bindings ==>
         var b := s.bindings[k];
         if b.mark.status == Active && picked(b) then WentStale(b, t.bindings[k]) else t.bindings[k] == b
  }

  lemma StaledByMatch(s: Snapshot, m: Match)
    ensures StaledWhere(s, StaleMatching(s, m), (b: Binding) => Hits(m, b))
    ensures StaleMatching(s, m) == s.(bindings := StaleMatching(s, m).bindings)
  {
    hide Hits;
  }

  lemma StaledTwice(s: Snapshot, m: Snapshot, t: Snapshot, first: Binding -> bool, second: Binding -> bool)
    requires StaledWhere(s, m, first) && StaledWhere(m, t, second)
    ensures StaledWhere(s, t, (b: Binding) => first(b) || second(b))
  {
    forall k | k in s.bindings
      ensures var b := s.bindings[k];
              if b.mark.status == Active && (first(b) || second(b)) then WentStale(b, t.bindings[k]) else t.bindings[k] == b
    {
      assert k in m.bindings;
    }
  }

  // ---- a task starts ----

  /** A binding captured at another branch, commit or epoch than the current one. */
  predicate LeftBehind(s: Snapshot, b: Binding) {
    && b.needs.branch
    && (|| b.at.branch != s.current.branch
        || (b.epochs.branch != 0 && b.epochs.branch != EpochOf(s.clocks.branches, BranchKey(b.at.repo, b.at.branch)))
        || (b.needs.commit && b.at.commit != s.current.commit)
        || (b.needs.commit && b.epochs.commit != 0
            && b.epochs.commit != EpochOf(s.clocks.commits, CommitKey(b.at.repo, b.at.branch, b.at.commit))))
  }

  /** Bound to nothing but the whole memory. */
  predicate Unbound(b: Binding) {
    b.scope == GlobalScope && !b.needs.repo && !b.needs.task && !b.needs.branch && !b.needs.commit
  }

  /** Starting a task never fails; what was bound to the last task, to another repository or to a place
      left behind goes stale, and nothing else does. */
  lemma TaskStartLaw(s: Snapshot, ev: Event)
    requires ev.change.TaskStarted?
    ensures Applied(s, ev).Ok?
    ensures var t := Applied(s, ev).value;
            && t.current.repo == ev.at.repo && t.current.task == ev.at.task && t.current.commit == ev.at.commit
            && t.current.branch == (if ev.at.branch != "" then ev.at.branch else ev.change.payloadBranch)
            && BranchEntered(s.clocks, t.clocks, t.current) && CommitEntered(s.clocks, t.clocks, t.current)
            && t.known == s.known && t.clocks.paths == s.clocks.paths && t.revision == s.revision
            && StaledWhere(s, t, (b: Binding) => (s.current.repo != ev.at.repo && !Unbound(b)) || b.needs.task || LeftBehind(t, b))
  {
    hide EnterScope, BranchEntered, CommitEntered, Hits, StaledWhere, StaleMatching, LeftBehind;
    var left := if s.current.repo != ev.at.repo then StaleMatching(s, NotGlobal) else s;
    var closed := StaleMatching(left, TaskBound);
    var entered := closed.(current := TaskPlace(ev), clocks := EnterScope(s.clocks, TaskPlace(ev)));
    var t := Applied(s, ev).value;
    StaledByMatch(s, NotGlobal);
    StaledByMatch(left, TaskBound);
    var m := OutOfScope(entered.current, entered.clocks);
    StaledByMatch(entered, m);
    EnteringScope(s.clocks, TaskPlace(ev));
    var first: Binding -> bool := (b: Binding) => s.current.repo != ev.at.repo && Hits(NotGlobal, b);
    assert StaledWhere(s, left, first) by { StaledNowhere(s); StaledSame(s, left, if s.current.repo != ev.at.repo then (b: Binding) => Hits(NotGlobal, b) else (b: Binding) => false, first); }
    StaledTwice(s, left, closed, first, (b: Binding) => Hits(TaskBound, b));
    StaledFrom(closed, entered, t, (b: Binding) => Hits(m, b));
    StaledTwice(s, closed, t, (b: Binding) => first(b) || Hits(TaskBound, b), (b: Binding) => Hits(m, b));
    ScopeHits(t, m);
    StaledSame(s, t, (b: Binding) => (first(b) || Hits(TaskBound, b)) || Hits(m, b),
               (b: Binding) => (s.current.repo != ev.at.repo && !Unbound(b)) || b.needs.task || LeftBehind(t, b));
  }

  lemma StaledNowhere(s: Snapshot)
    ensures StaledWhere(s, s, (b: Binding) => false)
  {
  }

  lemma StaledSame(s: Snapshot, t: Snapshot, a: Binding -> bool, c: Binding -> bool)
    requires StaledWhere(s, t, a) && forall b: Binding :: a(b) == c(b)
    ensures StaledWhere(s, t, c)
  {
  }

  lemma StaledFrom(s: Snapshot, m: Snapshot, t: Snapshot, picked: Binding -> bool)
    requires s.bindings == m.bindings && StaledWhere(m, t, picked)
    ensures StaledWhere(s, t, picked)
  {
  }

  /** The place is entered anew: until the clock is exhausted its epochs exceed every earlier one, and
      no other branch or commit gets a new one. */
  ghost predicate BranchEntered(c: Clocks, d: Clocks, at: Place) {
    && (at.repo != "" && at.branch != "" && c.now < MaxEpoch ==> EpochOf(d.branches, BranchKey(at.repo, at.branch)) > c.now)
    && (forall k :: k != BranchKey(at.repo, at.branch) ==> EpochOf(d.branches, k) == EpochOf(c.branches, k))
  }

  ghost predicate CommitEntered(c: Clocks, d: Clocks, at: Place) {
    && (at.repo != "" && at.branch != "" && at.commit != "" && c.now < MaxEpoch ==>
          EpochOf(d.commits, CommitKey(at.repo, at.branch, at.commit)) > c.now)
    && (forall k :: k != CommitKey(at.repo, at.branch, at.commit) ==> EpochOf(d.commits, k) == EpochOf(c.commits, k))
  }

  lemma EnteringCommit(c: Clocks, at: Place)
    ensures var d := EnterCommit(c, at);
            d.paths == c.paths && d.branches == c.branches && d.repos == c.repos && CommitEntered(c, d, at) && d.now >= c.now
            && (at.repo != "" && at.branch != "" && at.commit != "" ==> EpochOf(d.commits, CommitKey(at.repo, at.branch, at.commit)) == d.now)
  {
  }

  lemma EnteringBranch(c: Clocks, at: Place)
    ensures var d := EnterBranch(c, at);
            d.paths == c.paths && d.repos == c.repos && BranchEntered(c, d, at) && CommitEntered(c, d, at) && d.now >= c.now
            && (at.repo != "" && at.branch != "" ==> EpochOf(d.branches, BranchKey(at.repo, at.branch)) >= c.now)
            && (at.repo != "" && at.branch != "" && at.commit != "" ==> EpochOf(d.commits, CommitKey(at.repo, at.branch, at.commit)) == d.now)
  {
    hide EnterCommit;
    var m := if at.repo != "" && at.branch != "" then Ticked(c).(branches := c.branches[BranchKey(at.repo, at.branch) := Ticked(c).now]) else c;
    EnteringCommit(m, at);
  }

  lemma EnteringScope(c: Clocks, at: Place)
    ensures var d := EnterScope(c, at);
            && d.paths == c.paths && BranchEntered(c, d, at) && CommitEntered(c, d, at)
            && (at.repo != "" && c.now < MaxEpoch ==> EpochOf(d.repos, at.repo) > c.now)
  {
    hide EnterBranch;
    var m := if at.repo != "" then Ticked(c).(repos := c.repos[at.repo := Ticked(c).now]) else c;
    EnteringBranch(m, at);
  }

  lemma ScopeHits(t: Snapshot, m: Match)
    requires m == OutOfScope(t.current, t.clocks)
    ensures forall b: Binding :: Hits(m, b) == LeftBehind(t, b)
    ensures forall b: Binding :: Hits(NotGlobal, b) == !Unbound(b)
    ensures forall b: Binding :: Hits(TaskBound, b) == b.needs.task
  {
  }

  // ---- branch and commit changes ----

  /** A branch change is taken exactly when it leaves from the current repository, branch and, if it
      says so, commit. */
  lemma BranchChangeLaw(s: Snapshot, ev: Event)
    requires ev.change.BranchChange?
    ensures Applied(s, ev).Ok? <==>
              && s.current.repo != "" && s.current.repo == ev.at.repo
              && s.current.branch != "" && s.current.branch == ev.change.fromBranch
              && (ev.change.fromCommit.Some? ==> s.current.commit != "" && s.current.commit == ev.change.fromCommit.value)
    ensures Applied(s, ev).Ok? ==>
              var t := Applied(s, ev).value;
              && t.current == Place(ev.at.repo, s.current.task, ev.at.branch, ev.at.commit)
              && BranchEntered(s.clocks, t.clocks, t.current) && CommitEntered(s.clocks, t.clocks, t.current)
              && t.known == s.known && t.clocks.paths == s.clocks.paths && t.revision == s.revision
              && StaledWhere(s, t, (b: Binding) => b.at.repo == ev.at.repo && LeftBehind(t, b))
  {
    hide EnterBranch, BranchEntered, CommitEntered, StaledWhere, StaleMatching, LeftBehind, MatchesCurrent;
    if Applied(s, ev).Ok? {
      var at := Place(ev.at.repo, s.current.task, ev.at.branch, ev.at.commit);
      var entered := s.(current := at, clocks := EnterBranch(s.clocks, at));
      var m := OutOfScopeInRepo(ev.at.repo, at, entered.clocks);
      var t := Applied(s, ev).value;
      EnteringBranch(s.clocks, at);
      StaledByMatch(entered, m);
      StaledFrom(s, entered, t, (b: Binding) => Hits(m, b));
      RepoHits(t, m);
      StaledSame(s, t, (b: Binding) => Hits(m, b), (b: Binding) => b.at.repo == ev.at.repo && LeftBehind(t, b));
    }
  }

  lemma RepoHits(t: Snapshot, m: Match)
    requires m.OutOfScopeInRepo? && m.at == t.current && m.clocks == t.clocks
    ensures forall b: Binding :: Hits(m, b) == (b.at.repo == m.repo && LeftBehind(t, b))
  {
  }

  lemma BranchHits(t: Snapshot, m: Match)
    requires m.OutOfScopeInBranch? && m.at == t.current && m.clocks == t.clocks
    ensures forall b: Binding :: Hits(m, b) == (b.at.repo == m.repo && b.at.branch == m.branch && LeftBehind(t, b))
  {
  }

  /** Active at another commit before, stale now and one revision further; its epoch stays. */
  predicate PathWentStale(p: PathState, q: PathState) {
    && p.mark.status == Active && q.mark.status == Stale && q.mark.reason == p.mark.reason
    && OneUp(p.mark.revision, q.mark.revision)
    && q == p.(mark := q.mark)
  }

  /** A commit change is taken exactly when it leaves from the current commit of the current branch;
      the active paths of that branch last seen at another commit go stale. */
  lemma CommitChangeLaw(s: Snapshot, ev: Event)
    requires ev.change.CommitChange?
    ensures Applied(s, ev).Ok? <==>
              && s.current.repo != "" && s.current.repo == ev.at.repo
              && s.current.branch != "" && s.current.branch == ev.at.branch
              && s.current.commit != "" && s.current.commit == ev.change.fromRevision
    ensures Applied(s, ev).Ok? ==>
              var t := Applied(s, ev).value;
              && t.current == s.current.(commit := ev.at.commit)
              && CommitEntered(s.clocks, t.clocks, t.current) && t.clocks.branches == s.clocks.branches
              && t.clocks.paths == s.clocks.paths && t.revision == s.revision && t.known.Keys == s.known.Keys
              && (forall k :: k in s.known ==>
                    if s.known[k].mark.status == Active && k.repo == ev.at.repo && k.branch == ev.at.branch && s.known[k].commit != ev.at.commit
                    then PathWentStale(s.known[k], t.known[k]) else t.known[k] == s.known[k])
              && StaledWhere(s, t, (b: Binding) => b.at.repo == ev.at.repo && b.at.branch == ev.at.branch && LeftBehind(t, b))
  {
    hide EnterCommit, CommitEntered, StaledWhere, StaleMatching, LeftBehind, MatchesCurrent;
    if Applied(s, ev).Ok? {
      var at := s.current.(commit := ev.at.commit);
      var entered := s.(current := at, clocks := EnterCommit(s.clocks, at), known := StaledPaths(s.known, ev.at));
      var m := OutOfScopeInBranch(ev.at.repo, ev.at.branch, at, entered.clocks);
      var t := Applied(s, ev).value;
      EnteringCommit(s.clocks, at);
      StaledByMatch(entered, m);
      StaledFrom(s, entered, t, (b: Binding) => Hits(m, b));
      BranchHits(t, m);
      StaledSame(s, t, (b: Binding) => Hits(m, b), (b: Binding) => b.at.repo == ev.at.repo && b.at.branch == ev.at.branch && LeftBehind(t, b));
    }
  }

  // ---- file snapshots ----

  /** Some known path of the place is invalidated and lies above or beneath this one. */
  ghost predicate UnderDead(s: Snapshot, repo: string, branch: string, path: string) {
    exists k :: k in s.known && k.repo == repo && k.branch == branch && s.known[k].mark.status == Invalidated
      && (PathWithin(path, k.path) || PathWithin(k.path, path))
  }

  /** The binding is over a path of the place above or beneath one of the roots. */
  predicate Over(b: Binding, repo: string, branch: string, roots: seq<string>) {
    b.at.repo == repo && b.at.branch == branch
    && exists p, r :: p in b.paths && r in roots && (PathWithin(p, r) || PathWithin(r, p))
  }

  /** A snapshot is taken exactly when its envelope is wholly current and nothing dead overlaps the
      path.  The path becomes active with the digest; its epoch is new exactly when it never had one or
      the digest changed, and exactly then what is bound over it goes stale. */
  lemma SnapshotLaw(s: Snapshot, ev: Event)
    requires ev.change.FileSnapshot?
    ensures Applied(s, ev).Ok? <==>
              && s.current.repo != "" && s.current.repo == ev.at.repo && s.current.branch != "" && s.current.branch == ev.at.branch
              && s.current.commit != "" && s.current.commit == ev.at.commit
              && !UnderDead(s, ev.at.repo, ev.at.branch, ev.change.path)
    ensures Applied(s, ev).Ok? ==> Snapshotted(s, ev, Applied(s, ev).value)
  {
    hide StaledWhere, StaleMatching, PathWithin, SnapshotClocks, Snapshotted;
    TerminalIsUnderDead(s, ev.at.repo, ev.at.branch, ev.change.path);
    if Applied(s, ev).Ok? { SnapshotLeaves(s, ev); }
  }

  lemma TerminalIsUnderDead(s: Snapshot, repo: string, branch: string, path: string)
    ensures TerminalOverlap(s.known, repo, branch, path) == UnderDead(s, repo, branch, path)
  {
    hide PathWithin;
  }

  /** The path is active with the digest; its epoch is new exactly when it never had one or the digest
      changed, and exactly then what is bound over it goes stale. */
  ghost predicate Snapshotted(s: Snapshot, ev: Event, t: Snapshot)
    requires ev.change.FileSnapshot?
  {
    var k := PathKey(ev.at.repo, ev.at.branch, ev.change.path);
    var renewed := EpochOf(s.clocks.paths, k) == 0 || (k in s.known && s.known[k].digest != ev.change.digest);
    var moved := EpochOf(t.clocks.paths, k) != EpochOf(s.clocks.paths, k);
    && t.current == s.current && t.revision == s.revision
    && t.known == s.known[k := PathState(ev.at.commit, ev.change.digest, Mark(Active, 0, NoReason), EpochOf(t.clocks.paths, k), ev.id)]
    && t.clocks == s.clocks.(now := t.clocks.now, paths := t.clocks.paths)
    && (forall j :: j != k ==> EpochOf(t.clocks.paths, j) == EpochOf(s.clocks.paths, j))
    && (moved ==> renewed)
    && (renewed && s.clocks.now < MaxEpoch ==> EpochOf(t.clocks.paths, k) > s.clocks.now)
    && StaledWhere(s, t, (b: Binding) => moved && Over(b, ev.at.repo, ev.at.branch, [ev.change.path]))
  }

  lemma SnapshotLeaves(s: Snapshot, ev: Event)
    requires ev.change.FileSnapshot? && Applied(s, ev).Ok?
    ensures Snapshotted(s, ev, Applied(s, ev).value)
  {
    hide StaledWhere, StaleMatching, TerminalOverlap, SnapshotClocks;
    var k := PathKey(ev.at.repo, ev.at.branch, ev.change.path);
    var t := Applied(s, ev).value;
    var advanced := s.(clocks := SnapshotClocks(s, ev));
    var m := Touching(ev.at.repo, ev.at.branch, [ev.change.path]);
    var picked := (b: Binding) =>
      EpochOf(t.clocks.paths, k) != EpochOf(s.clocks.paths, k) && Over(b, ev.at.repo, ev.at.branch, [ev.change.path]);
    SnapshotEpochs(s, ev);
    StaledByMatch(advanced, m);
    TouchingHits(m);
    StaledNowhere(s);
    if EpochOf(t.clocks.paths, k) != EpochOf(s.clocks.paths, k) {
      StaledAround(s, advanced, StaleMatching(advanced, m), t, (b: Binding) => Hits(m, b));
      StaledSame(s, t, (b: Binding) => Hits(m, b), picked);
    } else {
      StaledAround(s, s, s, t, (b: Binding) => false);
      StaledSame(s, t, (b: Binding) => false, picked);
    }
  }

  lemma SnapshotEpochs(s: Snapshot, ev: Event)
    requires ev.change.FileSnapshot?
    ensures var k, d := PathKey(ev.at.repo, ev.at.branch, ev.change.path), SnapshotClocks(s, ev);
            var renewed := EpochOf(s.clocks.paths, k) == 0 || (k in s.known && s.known[k].digest != ev.change.digest);
            && d == s.clocks.(now := d.now, paths := d.paths)
            && (forall j :: j != k ==> EpochOf(d.paths, j) == EpochOf(s.clocks.paths, j))
            && (EpochOf(d.paths, k) != EpochOf(s.clocks.paths, k) ==> renewed)
            && (renewed && s.clocks.now < MaxEpoch ==> EpochOf(d.paths, k) > s.clocks.now)
  {
    hide BumpPath, EpochOf;
    var k := PathKey(ev.at.repo, ev.at.branch, ev.change.path);
    OneBump(s.clocks, k);
    OneBump(EnsurePath(s.clocks, k), k);
  }

  lemma OneBump(c: Clocks, k: PathKey)
    ensures var d := BumpPath(c, k);
            && d == c.(now := d.now, paths := d.paths) && d.now >= c.now
            && EpochOf(d.paths, k) >= c.now && (c.now < MaxEpoch ==> EpochOf(d.paths, k) > c.now)
            && forall j :: j != k ==> EpochOf(d.paths, j) == EpochOf(c.paths, j)
  {
  }

  lemma StaledAround(s: Snapshot, m: Snapshot, n: Snapshot, t: Snapshot, picked: Binding -> bool)
    requires s.bindings == m.bindings && n.bindings == t.bindings && StaledWhere(m, n, picked)
    ensures StaledWhere(s, t, picked)
  {
  }

  lemma TouchingHits(m: Match)
    requires m.Touching?
    ensures forall b: Binding :: Hits(m, b) == Over(b, m.repo, m.branch, m.roots)
  {
    hide PathWithin;
    forall b: Binding ensures Hits(m, b) == Over(b, m.repo, m.branch, m.roots) {
      if p, r :| p in b.paths && r in m.roots && PathsOverlap(p, r) { assert PathWithin(p, r) || PathWithin(r, p); }
      if p, r :| p in b.paths && r in m.roots && (PathWithin(p, r) || PathWithin(r, p)) { assert PathsOverlap(p, r); }
    }
  }

  // ---- renames ----

  /** The path of a moved range: stale one revision further, at a new epoch, evidenced by the event. */
  predicate RangeMoved(ev: Event, p: PathState, q: PathState, epoch: nat) {
    && q.mark.status == Stale && q.mark.reason == p.mark.reason && OneUp(p.mark.revision, q.mark.revision)
    && q == PathState(p.commit, p.digest, q.mark, epoch, ev.id)
  }

  /** What was known of a path; nothing at all reads as an active path without contents. */
  function KnownAs(s: Snapshot, k: PathKey): PathState {
    if k in s.known then s.known[k] else PathState("", "", Mark(Active, 0, NoReason), 0, "")
  }

  ghost predicate RangesMoved(s: Snapshot, ev: Event, t: Snapshot, paths: seq<string>) {
    && t.bindings == s.bindings && t.current == s.current && t.revision == s.revision
    && t.clocks == s.clocks.(now := t.clocks.now, paths := t.clocks.paths) && t.clocks.now >= s.clocks.now
    && forall k: PathKey ::
         if k.repo == ev.at.repo && k.branch == ev.at.branch && k.path in paths && KnownAs(s, k).mark.status != Invalidated then
           && k in t.known && RangeMoved(ev, KnownAs(s, k), t.known[k], EpochOf(t.clocks.paths, k))
           && EpochOf(t.clocks.paths, k) >= s.clocks.now
           && (s.clocks.now < MaxEpoch ==> EpochOf(t.clocks.paths, k) > s.clocks.now)
         else
           && (k in t.known <==> k in s.known) && (k in s.known ==> t.known[k] == s.known[k])
           && EpochOf(t.clocks.paths, k) == EpochOf(s.clocks.paths, k)
  }

  lemma OneRangeMoves(s: Snapshot, ev: Event, path: string)
    ensures RangesMoved(s, ev, RenamePath(s, ev, path), [path])
  {
    hide BumpPath, EpochOf;
    OneBump(s.clocks, PathKey(ev.at.repo, ev.at.branch, path));
  }

  lemma {:induction false} RangesMove(s: Snapshot, ev: Event, paths: seq<string>)
    requires forall i, j :: 0 <= i < j < |paths| ==> paths[i] != paths[j]
    ensures RangesMoved(s, ev, RenamePaths(s, ev, paths), paths)
    decreases |paths|
  {
    hide RenamePath, RangesMoved;
    if paths == [] {
      NothingMoves(s, ev);
    } else {
      OneRangeMoves(s, ev, paths[0]);
      var m, rest := RenamePath(s, ev, paths[0]), paths[1..];
      assert forall i, j :: 0 <= i < j < |rest| ==> rest[i] == paths[i + 1] && rest[j] == paths[j + 1];
      RangesMove(m, ev, rest);
      assert paths == [paths[0]] + rest;
      MovesCombine(s, m, RenamePaths(m, ev, rest), ev, [paths[0]], rest);
    }
  }

  lemma NothingMoves(s: Snapshot, ev: Event)
    ensures RangesMoved(s, ev, s, [])
  {
  }

  lemma MovesCombine(s: Snapshot, m: Snapshot, t: Snapshot, ev: Event, a: seq<string>, b: seq<string>)
    requires (forall p :: p in a ==> p !in b) && RangesMoved(s, ev, m, a) && RangesMoved(m, ev, t, b)
    ensures RangesMoved(s, ev, t, a + b)
  {
  }

  /** The path is one of the two named, or known and above or beneath one of them. */
  predicate Affected(s: Snapshot, at: Place, from: string, to: string, path: string) {
    || path == from || path == to
    || (PathKey(at.repo, at.branch, path) in s.known
        && (PathWithin(path, from) || PathWithin(from, path) || PathWithin(path, to) || PathWithin(to, path)))
  }

  /** Both ranges have moved: what was known there is stale at new epochs, only the destination is
      active, with the new digest, and what was bound over either range is stale. */
  ghost predicate FileMoved(s: Snapshot, ev: Event, t: Snapshot)
    requires ev.change.FileRenamed?
  {
    var from, to := ev.change.from, ev.change.to;
    var arrived := PathKey(ev.at.repo, ev.at.branch, to);
    && t.current == s.current && t.revision == s.revision
    && t.clocks == s.clocks.(now := t.clocks.now, paths := t.clocks.paths)
    && arrived in t.known
    && t.known[arrived] == PathState(s.current.commit, ev.change.newDigest, Mark(Active, 0, NoReason), EpochOf(t.clocks.paths, arrived), ev.id)
    && (forall k: PathKey :: k != arrived ==>
          if k.repo == ev.at.repo && k.branch == ev.at.branch && Affected(s, ev.at, from, to, k.path)
          then k in t.known && RangeMoved(ev, KnownAs(s, k), t.known[k], EpochOf(t.clocks.paths, k))
          else (k in t.known <==> k in s.known) && (k in s.known ==> t.known[k] == s.known[k]))
    && (forall k: PathKey ::
          if k.repo == ev.at.repo && k.branch == ev.at.branch && Affected(s, ev.at, from, to, k.path)
          then s.clocks.now < MaxEpoch ==> EpochOf(t.clocks.paths, k) > s.clocks.now
          else EpochOf(t.clocks.paths, k) == EpochOf(s.clocks.paths, k))
    && StaledWhere(s, t, (b: Binding) => Over(b, ev.at.repo, ev.at.branch, [from, to]))
  }

  /** A rename is taken exactly when it is of the current branch and nothing dead overlaps either end. */
  lemma RenameLaw(s: Snapshot, ev: Event)
    requires ev.change.FileRenamed?
    ensures Applied(s, ev).Ok? <==>
              && s.current.repo != "" && s.current.repo == ev.at.repo && s.current.branch != "" && s.current.branch == ev.at.branch
              && !UnderDead(s, ev.at.repo, ev.at.branch, ev.change.from) && !UnderDead(s, ev.at.repo, ev.at.branch, ev.change.to)
    ensures Applied(s, ev).Ok? ==> FileMoved(s, ev, Applied(s, ev).value)
  {
    hide Renamed, RenameAffects, TerminalOverlap, UnderDead, FileMoved;
    TerminalIsUnderDead(s, ev.at.repo, ev.at.branch, ev.change.from);
    TerminalIsUnderDead(s, ev.at.repo, ev.at.branch, ev.change.to);
    if Applied(s, ev).Ok? { RenameLeaves(s, ev); }
  }

  lemma RenameLeaves(s: Snapshot, ev: Event)
    requires ev.change.FileRenamed? && Applied(s, ev).Ok?
    ensures FileMoved(s, ev, Applied(s, ev).value)
  {
    hide Applied, StaledWhere, RangeMoved, Over, EpochOf, Affected;
    RenameMoves(s, ev);
    RenameStales(s, ev);
  }

  lemma RenameParts(s: Snapshot, ev: Event) returns (arrived: Snapshot)
    requires ev.change.FileRenamed? && Applied(s, ev).Ok?
    ensures var moved := RenamePaths(s, ev, SortedListing(RenameAffects(s, ev.at, ev.change.from, ev.change.to)));
            var k := PathKey(ev.at.repo, ev.at.branch, ev.change.to);
            arrived == moved.(known := moved.known[k :=
              PathState(moved.current.commit, ev.change.newDigest, Mark(Active, 0, NoReason), EpochOf(moved.clocks.paths, k), ev.id)])
    ensures Applied(s, ev).value == StaleMatching(arrived, Touching(ev.at.repo, ev.at.branch, [ev.change.from, ev.change.to]))
    ensures RangesMoved(s, ev, RenamePaths(s, ev, SortedListing(RenameAffects(s, ev.at, ev.change.from, ev.change.to))),
                        SortedListing(RenameAffects(s, ev.at, ev.change.from, ev.change.to)))
  {
    hide RenamePaths, RenameAffects, StaleMatching, TerminalOverlap, RangesMoved, EpochOf;
    var paths := SortedListing(RenameAffects(s, ev.at, ev.change.from, ev.change.to));
    var moved := RenamePaths(s, ev, paths);
    var k := PathKey(ev.at.repo, ev.at.branch, ev.change.to);
    arrived := moved.(known := moved.known[k :=
      PathState(moved.current.commit, ev.change.newDigest, NoMark, EpochOf(moved.clocks.paths, k), ev.id)]);
    SortedIsDistinct(paths);
    RangesMove(s, ev, paths);
  }

  lemma RenameStales(s: Snapshot, ev: Event)
    requires ev.change.FileRenamed? && Applied(s, ev).Ok?
    ensures StaledWhere(s, Applied(s, ev).value, (b: Binding) => Over(b, ev.at.repo, ev.at.branch, [ev.change.from, ev.change.to]))
  {
    hide RenamePaths, RenameAffects, StaledWhere, StaleMatching, Applied, Over, EpochOf;
    var t := Applied(s, ev).value;
    var arrived := RenameParts(s, ev);
    var m := Touching(ev.at.repo, ev.at.branch, [ev.change.from, ev.change.to]);
    StaledByMatch(arrived, m);
    StaledFrom(s, arrived, t, (b: Binding) => Hits(m, b));
    TouchingHits(m);
    StaledSame(s, t, (b: Binding) => Hits(m, b), (b: Binding) => Over(b, ev.at.repo, ev.at.branch, [ev.change.from, ev.change.to]));
  }

  lemma RenameMoves(s: Snapshot, ev: Event)
    requires ev.change.FileRenamed? && Applied(s, ev).Ok?
    ensures var t, from, to := Applied(s, ev).value, ev.change.from, ev.change.to;
            var arrived := PathKey(ev.at.repo, ev.at.branch, to);
            && t.current == s.current && t.revision == s.revision
            && t.clocks == s.clocks.(now := t.clocks.now, paths := t.clocks.paths)
            && arrived in t.known
            && t.known[arrived] == PathState(s.current.commit, ev.change.newDigest, Mark(Active, 0, NoReason), EpochOf(t.clocks.paths, arrived), ev.id)
            && (forall k: PathKey :: k != arrived ==>
                  if k.repo == ev.at.repo && k.branch == ev.at.branch && Affected(s, ev.at, from, to, k.path)
                  then k in t.known && RangeMoved(ev, KnownAs(s, k), t.known[k], EpochOf(t.clocks.paths, k))
                  else (k in t.known <==> k in s.known) && (k in s.known ==> t.known[k] == s.known[k]))
            && (forall k: PathKey ::
                  if k.repo == ev.at.repo && k.branch == ev.at.branch && Affected(s, ev.at, from, to, k.path)
                  then s.clocks.now < MaxEpoch ==> EpochOf(t.clocks.paths, k) > s.clocks.now
                  else EpochOf(t.clocks.paths, k) == EpochOf(s.clocks.paths, k))
  {
    hide RenamePaths, RenameAffects, StaleMatching, Applied, RangeMoved, EpochOf, Affected, KnownAs, Sorted;
    var arrived := RenameParts(s, ev);
    AffectedAreLive(s, ev);
    StaledByMatch(arrived, Touching(ev.at.repo, ev.at.branch, [ev.change.from, ev.change.to]));
    assert ev.change.to in RenameAffects(s, ev.at, ev.change.from, ev.change.to) by { DestinationIsAffected(s, ev); }
  }

  lemma DestinationIsAffected(s: Snapshot, ev: Event)
    requires ev.change.FileRenamed?
    ensures ev.change.to in RenameAffects(s, ev.at, ev.change.from, ev.change.to)
  {
  }

  lemma SortedIsDistinct(paths: seq<string>)
    requires Sorted(paths)
    ensures forall i, j :: 0 <= i < j < |paths| ==> paths[i] != paths[j]
  {
    hide Before;
    forall i, j | 0 <= i < j < |paths| ensures paths[i] != paths[j] {
      assert Before(paths[i], paths[j]);
      BeforeIsIrreflexive(paths[i]);
    }
  }

  /** What a rename that is taken affects, and that none of it is dead. */
  lemma AffectedAreLive(s: Snapshot, ev: Event)
    requires ev.change.FileRenamed? && Applied(s, ev).Ok?
    ensures var affected := RenameAffects(s, ev.at, ev.change.from, ev.change.to);
            && (forall p :: p in affected <==> Affected(s, ev.at, ev.change.from, ev.change.to, p))
            && (forall p :: p in affected ==> KnownAs(s, PathKey(ev.at.repo, ev.at.branch, p)).mark.status != Invalidated)
  {
    hide PathWithin, Renamed;
    var from, to, affected := ev.change.from, ev.change.to, RenameAffects(s, ev.at, ev.change.from, ev.change.to);
    forall p | p in affected
      ensures KnownAs(s, PathKey(ev.at.repo, ev.at.branch, p)).mark.status != Invalidated
    {
      var k := PathKey(ev.at.repo, ev.at.branch, p);
      if k in s.known && s.known[k].mark.status == Invalidated { DeadAffectedIsOver(s, ev.at, from, to, p); }
    }
    forall p ensures p in affected <==> Affected(s, ev.at, from, to, p) {
      var k := PathKey(ev.at.repo, ev.at.branch, p);
      if k in s.known { assert k.path == p; }
    }
  }

  lemma DeadAffectedIsOver(s: Snapshot, at: Place, from: string, to: string, p: string)
    requires p in RenameAffects(s, at, from, to)
    requires var k := PathKey(at.repo, at.branch, p); k in s.known && s.known[k].mark.status == Invalidated
    ensures TerminalOverlap(s.known, at.repo, at.branch, from) || TerminalOverlap(s.known, at.repo, at.branch, to)
  {
    hide PathWithin;
    var k := PathKey(at.repo, at.branch, p);
    Reflexive(p);
    assert PathsOverlap(from, k.path) || PathsOverlap(to, k.path);
  }

  lemma Reflexive(p: string)
    ensures PathWithin(p, p)
  {
  }
}
