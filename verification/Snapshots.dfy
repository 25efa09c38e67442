/** The coherence sidecar of one session: scope, epochs, bindings and known paths. */
module Snapshots {
  import opened Paths

  const MaxEpoch: nat := 0xffff_ffff_ffff_ffff

  datatype TargetKind = RecordTarget | EventTarget | PageTarget | PathTarget
  datatype Status = Active | Stale | Invalidated
  datatype Reason = NoReason | Superseded | UserRejected | SourceDeleted | PolicyChanged | SecurityRevoked
  datatype ScopeName = NoScope | GlobalScope | RepoScope | BranchScope | TaskScope | FileScope | UnknownScope

  datatype Key = Key(kind: TargetKind, id: string)
  datatype BranchKey = BranchKey(repo: string, branch: string)
  datatype CommitKey = CommitKey(repo: string, branch: string, commit: string)
  datatype PathKey = PathKey(repo: string, branch: string, path: string)

  datatype Place = Place(repo: string, task: string, branch: string, commit: string)
  datatype Needs = Needs(repo: bool, task: bool, branch: bool, commit: bool)
  datatype Mark = Mark(status: Status, revision: nat, reason: Reason)
  datatype Epochs = Epochs(repo: nat, branch: nat, commit: nat, paths: map<string, nat>)

  datatype Binding = Binding(
    scope: ScopeName, at: Place, needs: Needs, paths: seq<string>, digest: string,
    mark: Mark, evidence: string, refs: seq<string>, epochs: Epochs)

  datatype PathState = PathState(commit: string, digest: string, mark: Mark, epoch: nat, evidence: string)

  datatype Clocks = Clocks(
    now: nat, repos: map<string, nat>, branches: map<BranchKey, nat>, commits: map<CommitKey, nat>, paths: map<PathKey, nat>)

  datatype Snapshot = Snapshot(
    revision: nat, current: Place, clocks: Clocks, bindings: map<Key, Binding>, known: map<PathKey, PathState>)

  const NoPlace := Place("", "", "", "")
  const NoMark := Mark(Active, 0, NoReason)
  const Empty := Snapshot(0, NoPlace, Clocks(0, map[], map[], map[], map[]), map[], map[])

  function FirstNonEmpty(a: string, b: string): string {
    if a != "" then a else b
  }

  // ---- the epoch clock ----

  /** A missing entry reads as epoch zero. */
  function EpochOf<K>(m: map<K, nat>, k: K): nat {
    if k in m then m[k] else 0
  }

  /** The clock stops at its last value instead of wrapping to an old one. */
  function Ticked(c: Clocks): Clocks {
    if c.now >= MaxEpoch then c else c.(now := c.now + 1)
  }

  function EnterCommit(c: Clocks, at: Place): Clocks {
    if at.repo != "" && at.branch != "" && at.commit != "" then
      var t := Ticked(c);
      t.(commits := t.commits[CommitKey(at.repo, at.branch, at.commit) := t.now])
    else c
  }

  function EnterBranch(c: Clocks, at: Place): Clocks {
    EnterCommit(
      if at.repo != "" && at.branch != "" then
        var t := Ticked(c);
        t.(branches := t.branches[BranchKey(at.repo, at.branch) := t.now])
      else c,
      at)
  }

  function EnterScope(c: Clocks, at: Place): Clocks {
    EnterBranch(
      if at.repo != "" then
        var t := Ticked(c);
        t.(repos := t.repos[at.repo := t.now])
      else c,
      at)
  }

  function BumpPath(c: Clocks, k: PathKey): Clocks {
    var t := Ticked(c);
    t.(paths := t.paths[k := t.now])
  }

  function EnsurePath(c: Clocks, k: PathKey): Clocks {
    if EpochOf(c.paths, k) == 0 then BumpPath(c, k) else c
  }

  // ---- marks ----

  function NextRevision(n: nat): nat {
    if n == MaxEpoch then n else n + 1
  }

  function MadeStale(m: Mark): Mark {
    m.(status := Stale, revision := NextRevision(m.revision))
  }

  function MadeInvalid(m: Mark, reason: Reason): Mark {
    Mark(Invalidated, NextRevision(m.revision), reason)
  }

  // ---- reading a binding against the current scope ----

  predicate BranchScoped(b: Binding) {
    b.needs.branch
  }

  predicate TrueGlobal(b: Binding) {
    b.scope == GlobalScope && b.needs == Needs(false, false, false, false)
  }

  predicate MatchesCurrent(b: Binding, at: Place, c: Clocks) {
    && b.at.branch == at.branch
    && (b.epochs.branch != 0 ==> b.epochs.branch == EpochOf(c.branches, BranchKey(b.at.repo, b.at.branch)))
    && (b.needs.commit ==> b.at.commit == at.commit)
    && (b.needs.commit && b.epochs.commit != 0 ==>
          b.epochs.commit == EpochOf(c.commits, CommitKey(b.at.repo, b.at.branch, b.at.commit)))
  }

  /** Some known path of that repository and branch is invalidated and overlaps the candidate. */
  predicate TerminalOverlap(known: map<PathKey, PathState>, repo: string, branch: string, candidate: string) {
    exists k :: k in known && k.repo == repo && k.branch == branch && known[k].mark.status == Invalidated && PathsOverlap(candidate, k.path)
  }

  function CapturePaths(at: Place, paths: seq<string>, c: Clocks): map<string, nat> {
    map p | p in paths :: EpochOf(c.paths, PathKey(at.repo, at.branch, p))
  }

  /** The binding with the epochs of its place taken from the clocks. */
  function Captured(b: Binding, c: Clocks): Binding {
    b.(epochs := Epochs(
         EpochOf(c.repos, b.at.repo),
         EpochOf(c.branches, BranchKey(b.at.repo, b.at.branch)),
         EpochOf(c.commits, CommitKey(b.at.repo, b.at.branch, b.at.commit)),
         CapturePaths(b.at, b.paths, c)))
  }

  predicate PathsCurrent(b: Binding, c: Clocks) {
    forall p :: p in b.paths ==> p in b.epochs.paths && b.epochs.paths[p] == EpochOf(c.paths, PathKey(b.at.repo, b.at.branch, p))
  }

  lemma CapturedIsCurrent(b: Binding, c: Clocks)
    ensures PathsCurrent(Captured(b, c), c)
  {
  }

  lemma CapturedMatches(b: Binding, at: Place, c: Clocks)
    requires b.at.branch == at.branch && (b.needs.commit ==> b.at.commit == at.commit)
    ensures MatchesCurrent(Captured(b, c), at, c)
  {
  }

  // ---- the filters applied to all bindings ----

  datatype Match =
    | NotGlobal
    | TaskBound
    | OutOfScope(at: Place, clocks: Clocks)
    | OutOfScopeInRepo(repo: string, at: Place, clocks: Clocks)
    | OutOfScopeInBranch(repo: string, branch: string, at: Place, clocks: Clocks)
    | Touching(repo: string, branch: string, roots: seq<string>)
    | TouchingAnywhere(root: string)

  predicate Hits(m: Match, b: Binding) {
    match m
    case NotGlobal => !TrueGlobal(b)
    case TaskBound => b.needs.task
    case OutOfScope(at, clocks) => BranchScoped(b) && !MatchesCurrent(b, at, clocks)
    case OutOfScopeInRepo(repo, at, clocks) => BranchScoped(b) && b.at.repo == repo && !MatchesCurrent(b, at, clocks)
    case OutOfScopeInBranch(repo, branch, at, clocks) =>
      BranchScoped(b) && b.at.repo == repo && b.at.branch == branch && !MatchesCurrent(b, at, clocks)
    case Touching(repo, branch, roots) =>
      b.at.repo == repo && b.at.branch == branch && exists p, r :: p in b.paths && r in roots && PathsOverlap(p, r)
    case TouchingAnywhere(root) => exists p :: p in b.paths && PathsOverlap(p, root)
  }

  /** Active bindings the filter hits become stale; nothing else changes. */
  function StaledBindings(bindings: map<Key, Binding>, m: Match): map<Key, Binding> {
    map k | k in bindings ::
      if bindings[k].mark.status == Active && Hits(m, bindings[k]) then bindings[k].(mark := MadeStale(bindings[k].mark)) else bindings[k]
  }

  function StaleMatching(s: Snapshot, m: Match): Snapshot {
    s.(bindings := StaledBindings(s.bindings, m))
  }

  /** Bindings not yet invalidated that the filter hits. */
  function LiveHits(bindings: map<Key, Binding>, m: Match): set<Key> {
    set k | k in bindings && bindings[k].mark.status != Invalidated && Hits(m, bindings[k])
  }

  function InvalidatedBindings(bindings: map<Key, Binding>, hit: set<Key>, reason: Reason): map<Key, Binding> {
    map k | k in bindings :: if k in hit then bindings[k].(mark := MadeInvalid(bindings[k].mark, reason)) else bindings[k]
  }
}
