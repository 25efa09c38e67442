/** What one event does to a snapshot, as a function: no iteration order enters it. */
module Transitions {
  import opened Paths
  import opened Snapshots
  import opened Eligibility
  import opened Cascade

  datatype Error = InvalidTransition | StaleRevision

  datatype Result<+T> = Ok(value: T) | Err(error: Error)

  datatype Change =
    | TaskStarted(payloadBranch: string)
    | BranchChange(fromBranch: string, fromCommit: Option<string>)
    | CommitChange(fromRevision: string)
    | FileSnapshot(path: string, digest: string)
    | FileRenamed(from: string, to: string, newDigest: string)
    | MemoryInvalidated(kind: TargetKind, target: string, reason: Reason)
    | MemoryRevalidated(staleKind: TargetKind, staleTarget: string, expected: nat, evidenceRef: string, sourceDigest: string)
    | FileTouched
    | CommandRan
    | OtherChange

  datatype Option<+T> = None | Some(value: T)

  /** A ledger event as coherence reads it: its envelope, its change, the file its hint names (if it
      names one), the scope in its payload. */
  datatype Event = Event(id: string, at: Place, change: Change, hintedFile: string, payloadScope: ScopeName)

  /** A derived record as coherence reads it.  References are absent when they do not parse. */
  datatype Derived =
    | TaskRecord(id: string, branch: string, commit: string)
    | ScopedRecord(id: string, scope: ScopeName)
    | FailureRecord(id: string, hintedFile: string)
    | DecisionRecord(id: string, scope: ScopeName, refs: Option<seq<string>>)
    | PageRecord(id: string, scope: ScopeName, branch: string, refs: Option<seq<string>>)
    | AvoidRecord(id: string, ref: string)
    | PlainRecord(id: string)
    | UnboundRecord

  // ---- guards ----

  predicate Agrees(current: string, supplied: string) {
    current != "" && current == supplied
  }

  predicate RepoBranchCurrent(s: Snapshot, at: Place) {
    Agrees(s.current.repo, at.repo) && Agrees(s.current.branch, at.branch)
  }

  predicate EnvelopeCurrent(s: Snapshot, at: Place) {
    RepoBranchCurrent(s, at) && Agrees(s.current.commit, at.commit)
  }

  // ---- scope transitions ----

  function TaskPlace(ev: Event): Place
    requires ev.change.TaskStarted?
  {
    Place(ev.at.repo, ev.at.task, FirstNonEmpty(ev.at.branch, ev.change.payloadBranch), ev.at.commit)
  }

  function StartTask(s: Snapshot, ev: Event): Snapshot
    requires ev.change.TaskStarted?
  {
    var left := if s.current.repo != ev.at.repo then StaleMatching(s, NotGlobal) else s;
    var closed := StaleMatching(left, TaskBound);
    var entered := closed.(current := TaskPlace(ev), clocks := EnterScope(s.clocks, TaskPlace(ev)));
    StaleMatching(entered, OutOfScope(entered.current, entered.clocks))
  }

  function ChangeBranch(s: Snapshot, ev: Event): Result<Snapshot>
    requires ev.change.BranchChange?
  {
    if !Agrees(s.current.repo, ev.at.repo) || !Agrees(s.current.branch, ev.change.fromBranch)
       || (ev.change.fromCommit.Some? && !Agrees(s.current.commit, ev.change.fromCommit.value))
    then Err(InvalidTransition)
    else
      var at := Place(ev.at.repo, s.current.task, ev.at.branch, ev.at.commit);
      var entered := s.(current := at, clocks := EnterBranch(s.clocks, at));
      Ok(StaleMatching(entered, OutOfScopeInRepo(ev.at.repo, at, entered.clocks)))
  }

  /** Known active paths left at another commit become stale; their epochs stay. */
  function StaledPaths(known: map<PathKey, PathState>, at: Place): map<PathKey, PathState> {
    map k | k in known ::
      if known[k].mark.status == Active && k.repo == at.repo && k.branch == at.branch && known[k].commit != at.commit
      then known[k].(mark := MadeStale(known[k].mark)) else known[k]
  }

  function ChangeCommit(s: Snapshot, ev: Event): Result<Snapshot>
    requires ev.change.CommitChange?
  {
    if !RepoBranchCurrent(s, ev.at) || !Agrees(s.current.commit, ev.change.fromRevision) then Err(InvalidTransition)
    else
      var at := s.current.(commit := ev.at.commit);
      var entered := s.(current := at, clocks := EnterCommit(s.clocks, at), known := StaledPaths(s.known, ev.at));
      Ok(StaleMatching(entered, OutOfScopeInBranch(ev.at.repo, ev.at.branch, at, entered.clocks)))
  }

  // ---- files ----

  function SnapshotClocks(s: Snapshot, ev: Event): Clocks
    requires ev.change.FileSnapshot?
  {
    var k := PathKey(ev.at.repo, ev.at.branch, ev.change.path);
    var ensured := EnsurePath(s.clocks, k);
    if k in s.known && s.known[k].digest != ev.change.digest then BumpPath(ensured, k) else ensured
  }

  function SnapshotFile(s: Snapshot, ev: Event): Result<Snapshot>
    requires ev.change.FileSnapshot?
  {
    var k := PathKey(ev.at.repo, ev.at.branch, ev.change.path);
    if !EnvelopeCurrent(s, ev.at) || TerminalOverlap(s.known, ev.at.repo, ev.at.branch, ev.change.path) then Err(InvalidTransition)
    else
      var clocks := SnapshotClocks(s, ev);
      var advanced := s.(clocks := clocks);
      var staled :=
        if EpochOf(clocks.paths, k) != EpochOf(s.clocks.paths, k)
        then StaleMatching(advanced, Touching(ev.at.repo, ev.at.branch, [ev.change.path])) else advanced;
      Ok(staled.(known := staled.known[k := PathState(ev.at.commit, ev.change.digest, NoMark, EpochOf(clocks.paths, k), ev.id)]))
  }

  const NoPath := PathState("", "", Mark(Active, 0, NoReason), 0, "")

  /** One path of a rename: its range gets a new epoch, and what was known of it becomes stale. */
  function RenamePath(s: Snapshot, ev: Event, path: string): Snapshot {
    var k := PathKey(ev.at.repo, ev.at.branch, path);
    var before := if k in s.known then s.known[k] else NoPath;
    if before.mark.status == Invalidated then s
    else
      var clocks := BumpPath(s.clocks, k);
      s.(clocks := clocks,
         known := s.known[k := before.(mark := MadeStale(before.mark), epoch := EpochOf(clocks.paths, k), evidence := ev.id)])
  }

  function RenamePaths(s: Snapshot, ev: Event, paths: seq<string>): Snapshot
    decreases |paths|
  {
    if paths == [] then s else RenamePaths(RenamePath(s, ev, paths[0]), ev, paths[1..])
  }

  function RenameAffects(s: Snapshot, at: Place, from: string, to: string): set<string> {
    {from, to}
    + set k | k in s.known && k.repo == at.repo && k.branch == at.branch && (PathsOverlap(k.path, from) || PathsOverlap(k.path, to)) :: k.path
  }

  ghost function RenameFile(s: Snapshot, ev: Event): Result<Snapshot>
    requires ev.change.FileRenamed?
  {
    var from, to := ev.change.from, ev.change.to;
    if !RepoBranchCurrent(s, ev.at)
       || TerminalOverlap(s.known, ev.at.repo, ev.at.branch, from) || TerminalOverlap(s.known, ev.at.repo, ev.at.branch, to)
    then Err(InvalidTransition)
    else Ok(Renamed(s, ev, SortedListing(RenameAffects(s, ev.at, from, to))))
  }

  function Renamed(s: Snapshot, ev: Event, affected: seq<string>): Snapshot
    requires ev.change.FileRenamed?
  {
    var k := PathKey(ev.at.repo, ev.at.branch, ev.change.to);
    var moved := RenamePaths(s, ev, affected);
    var arrived := moved.(known := moved.known[k :=
      PathState(moved.current.commit, ev.change.newDigest, NoMark, EpochOf(moved.clocks.paths, k), ev.id)]);
    StaleMatching(arrived, Touching(ev.at.repo, ev.at.branch, [ev.change.from, ev.change.to]))
  }

  // ---- invalidation ----

  function InvalidatePath(s: Snapshot, ev: Event, reason: Reason, path: string): Snapshot {
    var k := PathKey(s.current.repo, s.current.branch, path);
    if k !in s.known || s.known[k].mark.status == Invalidated then s
    else
      var clocks := BumpPath(s.clocks, k);
      s.(clocks := clocks,
         known := s.known[k := s.known[k].(mark := MadeInvalid(s.known[k].mark, reason), epoch := EpochOf(clocks.paths, k), evidence := ev.id)])
  }

  function InvalidatePaths(s: Snapshot, ev: Event, reason: Reason, paths: seq<string>): Snapshot
    decreases |paths|
  {
    if paths == [] then s else InvalidatePaths(InvalidatePath(s, ev, reason, paths[0]), ev, reason, paths[1..])
  }

  function PathsBelow(s: Snapshot, at: Place, root: string): set<string> {
    set k | k in s.known && k.repo == at.repo && k.branch == at.branch && PathWithin(k.path, root) :: k.path
  }

  ghost function InvalidateFile(s: Snapshot, ev: Event): Result<Snapshot>
    requires ev.change.MemoryInvalidated?
  {
    var k := PathKey(s.current.repo, s.current.branch, ev.change.target);
    if k !in s.known || s.known[k].mark.status == Invalidated then Err(InvalidTransition)
    else
      var below := InvalidatePaths(s, ev, ev.change.reason, SortedListing(PathsBelow(s, s.current, ev.change.target)));
      Ok(below.(bindings := InvalidateTouching(below.bindings, ev.change.target, ev.change.reason)))
  }

  /** Live bindings over the path, then whatever depends on any of them. */
  ghost function InvalidateTouching(bindings: Bindings, root: string, reason: Reason): Bindings {
    var hit := LiveHits(bindings, TouchingAnywhere(root));
    Cascaded(InvalidatedBindings(bindings, hit, reason), IdsOf(hit), reason)
  }

  function IdsOf(keys: set<Key>): set<string> {
    set k | k in keys :: k.id
  }

  ghost function InvalidateBinding(s: Snapshot, ev: Event): Result<Snapshot>
    requires ev.change.MemoryInvalidated?
  {
    var k := Key(ev.change.kind, ev.change.target);
    if k !in s.bindings || s.bindings[k].mark.status == Invalidated then Err(InvalidTransition)
    else
      var first := s.bindings[k := s.bindings[k].(mark := MadeInvalid(s.bindings[k].mark, ev.change.reason))];
      Ok(s.(bindings := Cascaded(first, {ev.change.target}, ev.change.reason)))
  }

  // ---- revalidation ----

  function RevalidatePath(s: Snapshot, ev: Event): Result<Snapshot>
    requires ev.change.MemoryRevalidated?
  {
    var k := PathKey(s.current.repo, s.current.branch, ev.change.staleTarget);
    if k !in s.known || s.known[k].mark.status != Stale then Err(InvalidTransition)
    else
      var p := s.known[k];
      if p.mark.revision != ev.change.expected then Err(StaleRevision)
      else if p.digest != "" && p.digest != ev.change.sourceDigest then Err(InvalidTransition)
      else
        var clocks := EnsurePath(s.clocks, k);
        Ok(s.(clocks := clocks,
              known := s.known[k := PathState(s.current.commit, p.digest, Mark(Active, p.mark.revision, NoReason), EpochOf(clocks.paths, k), ev.id)]))
  }

  predicate PathReady(s: Snapshot, p: string) {
    var k := PathKey(s.current.repo, s.current.branch, p);
    k in s.known && s.known[k].mark.status == Active && !TerminalOverlap(s.known, s.current.repo, s.current.branch, p)
  }

  /** The place a binding is revalidated to: current in what it needs, empty elsewhere. */
  function PlaceNeeded(needs: Needs, at: Place): Place {
    Place(if needs.repo then at.repo else "", if needs.task then at.task else "",
          if needs.branch then at.branch else "", if needs.commit then at.commit else "")
  }

  function Revalidated(s: Snapshot, b: Binding): Binding {
    var b' := b.(mark := Mark(Active, b.mark.revision, NoReason), at := PlaceNeeded(b.needs, s.current));
    Captured(b', s.clocks)
  }

  function RevalidateBinding(s: Snapshot, ev: Event): Result<Snapshot>
    requires ev.change.MemoryRevalidated?
  {
    var k := Key(ev.change.staleKind, ev.change.staleTarget);
    if k !in s.bindings || s.bindings[k].mark.status != Stale then Err(InvalidTransition)
    else
      var b := s.bindings[k];
      if b.mark.revision != ev.change.expected then Err(StaleRevision)
      else if k.kind == PageTarget && b.digest != "" && b.digest != ev.change.sourceDigest then Err(InvalidTransition)
      else if !(forall p :: p in b.paths ==> PathReady(s, p)) then Err(InvalidTransition)
      else if !(forall r :: r in b.refs ==> EligibleEvidence(s, r)) then Err(InvalidTransition)
      else Ok(s.(bindings := s.bindings[k := Revalidated(s, b)]))
  }

  function Revalidate(s: Snapshot, ev: Event): Result<Snapshot>
    requires ev.change.MemoryRevalidated?
  {
    if !EligibleEvidence(s, ev.change.evidenceRef) then Err(InvalidTransition)
    else if ev.change.staleKind == PathTarget then RevalidatePath(s, ev)
    else RevalidateBinding(s, ev)
  }

  // ---- any event ----

  ghost function Applied(s: Snapshot, ev: Event): Result<Snapshot> {
    match ev.change
    case TaskStarted(_) => Ok(StartTask(s, ev))
    case BranchChange(_, _) => ChangeBranch(s, ev)
    case CommitChange(_) => ChangeCommit(s, ev)
    case FileSnapshot(_, _) => SnapshotFile(s, ev)
    case FileRenamed(_, _, _) => RenameFile(s, ev)
    case MemoryInvalidated(kind, _, _) => if kind == PathTarget then InvalidateFile(s, ev) else InvalidateBinding(s, ev)
    case MemoryRevalidated(_, _, _, _, _) => Revalidate(s, ev)
    case _ => Ok(s)
  }

  // ---- new bindings ----

  function EventScope(change: Change): ScopeName {
    match change
    case FileSnapshot(_, _) => FileScope
    case FileTouched => FileScope
    case FileRenamed(_, _, _) => FileScope
    case CommandRan => BranchScope
    case _ => TaskScope
  }

  predicate SupportedScope(scope: ScopeName) {
    scope != NoScope && scope != UnknownScope
  }

  function GatesOf(needs: Needs, scope: ScopeName): Needs {
    var n := needs.(repo := needs.repo || scope != GlobalScope);
    match scope
    case TaskScope => n.(task := true)
    case BranchScope => n.(branch := true)
    case FileScope => n.(task := true, branch := true, commit := true)
    case _ => n
  }

  /** A scope's gates, with what the binding leaves open filled in from the current scope. */
  function AddGates(b: Binding, scope: ScopeName, current: Place): Binding {
    var needs := GatesOf(b.needs, scope);
    b.(needs := needs,
       at := Place(
         if scope != GlobalScope then FirstNonEmpty(b.at.repo, current.repo) else b.at.repo,
         if needs.task then FirstNonEmpty(b.at.task, current.task) else b.at.task,
         if needs.branch then FirstNonEmpty(b.at.branch, current.branch) else b.at.branch,
         if needs.commit then FirstNonEmpty(b.at.commit, current.commit) else b.at.commit))
  }

  function Canonical(b: Binding): Binding {
    var b' := b.(at := PlaceNeeded(b.needs, b.at));
    if TrueGlobal(b') then b'.(paths := []) else b'
  }

  /** The place an event speaks of: its envelope, filled in from the current scope. */
  function SpokenPlace(s: Snapshot, at: Place): Place {
    Place(FirstNonEmpty(at.repo, s.current.repo), FirstNonEmpty(at.task, s.current.task),
          FirstNonEmpty(at.branch, s.current.branch), FirstNonEmpty(at.commit, s.current.commit))
  }

  const NoNeeds := Needs(false, false, false, false)
  const NoEpochs := Epochs(0, 0, 0, map[])

  function Fresh(s: Snapshot, ev: Event, scope: ScopeName): Binding {
    Binding(scope, SpokenPlace(s, ev.at), NoNeeds, [], "", NoMark, ev.id, [], NoEpochs)
  }

  function EventBinding(s: Snapshot, ev: Event): Binding {
    var scope := EventScope(ev.change);
    var b := Fresh(s, ev, scope);
    var b1 :=
      if ev.change.FileSnapshot? then b.(paths := [ev.change.path], digest := ev.change.digest)
      else if ev.hintedFile != "" then b.(paths := [ev.hintedFile]) else b;
    var b2 := AddGates(b1, scope, s.current);
    var b3 := if scope == BranchScope then b2.(needs := b2.needs.(commit := true)) else b2;
    Captured(Canonical(b3), s.clocks)
  }

  function EventBound(s: Snapshot, ev: Event): Snapshot {
    s.(bindings := s.bindings[Key(EventTarget, ev.id) := EventBinding(s, ev)])
  }

  /** The whole transition of one event, before anything derived from it is bound. */
  ghost function Transition(s: Snapshot, ev: Event): Result<Snapshot> {
    if ev.id == "" then Err(InvalidTransition)
    else
      match Applied(s, ev)
      case Err(e) => Err(e)
      case Ok(next) => Ok(EventBound(next, ev))
  }

  // ---- bindings of derived records ----

  function LogicalBinding(s: Snapshot, id: string): Option<Binding> {
    if Key(RecordTarget, id) in s.bindings then Some(s.bindings[Key(RecordTarget, id)])
    else if Key(EventTarget, id) in s.bindings then Some(s.bindings[Key(EventTarget, id)])
    else if Key(PageTarget, id) in s.bindings then Some(s.bindings[Key(PageTarget, id)])
    else None
  }

  function Finished(s: Snapshot, k: Key, b: Binding, extra: Option<ScopeName>): Result<Option<(Key, Binding)>> {
    var scoped := if b.scope == NoScope then b.(scope := TaskScope) else b;
    if !SupportedScope(scoped.scope) then Err(InvalidTransition)
    else
      var gated := AddGates(scoped, scoped.scope, s.current);
      var both := if extra.Some? then AddGates(gated, extra.value, s.current) else gated;
      Ok(Some((k, Captured(Canonical(both), s.clocks))))
  }

  /** An avoidance record inherits everything from the binding it refers to, its status included. */
  function AvoidBinding(s: Snapshot, ev: Event, ref: string): Binding {
    match LogicalBinding(s, ref)
    case Some(grounding) => grounding.(evidence := ev.id, refs := [ref])
    case None => Fresh(s, ev, TaskScope).(refs := [ref])
  }

  function DerivedBinding(s: Snapshot, ev: Event, r: Derived): Result<Option<(Key, Binding)>> {
    match r
    case TaskRecord(id, branch, commit) =>
      var b := Fresh(s, ev, TaskScope);
      Finished(s, Key(RecordTarget, id), b.(at := b.at.(branch := branch, commit := commit)), None)
    case ScopedRecord(id, scope) => Finished(s, Key(RecordTarget, id), Fresh(s, ev, scope), None)
    case FailureRecord(id, file) =>
      Finished(s, Key(RecordTarget, id),
               Fresh(s, ev, BranchScope).(needs := NoNeeds.(commit := true), paths := if file != "" then [file] else []), None)
    case DecisionRecord(id, scope, refs) =>
      if refs.None? then Err(InvalidTransition)
      else Finished(s, Key(RecordTarget, id), Fresh(s, ev, scope).(refs := refs.value), None)
    case PageRecord(id, scope, branch, refs) =>
      if refs.None? then Err(InvalidTransition)
      else
        var b := Fresh(s, ev, scope);
        Finished(s, Key(PageTarget, id), b.(refs := refs.value, at := b.at.(branch := FirstNonEmpty(branch, b.at.branch))), None)
    case AvoidRecord(id, ref) =>
      var extra := if ev.payloadScope == NoScope then TaskScope else ev.payloadScope;
      if !SupportedScope(extra) then Err(InvalidTransition)
      else Finished(s, Key(RecordTarget, id), AvoidBinding(s, ev, ref), Some(extra))
    case PlainRecord(id) => Finished(s, Key(RecordTarget, id), Fresh(s, ev, TaskScope), None)
    case UnboundRecord => Ok(None)
  }

  function BindAll(s: Snapshot, ev: Event, records: seq<Derived>): Result<Snapshot>
    decreases |records|
  {
    if records == [] then Ok(s)
    else
      match DerivedBinding(s, ev, records[0])
      case Err(e) => Err(e)
      case Ok(None) => BindAll(s, ev, records[1..])
      case Ok(Some((k, b))) => BindAll(s.(bindings := s.bindings[k := b]), ev, records[1..])
  }

  function FirstTask(records: seq<Derived>): Option<string> {
    if records == [] then None
    else if records[0].TaskRecord? then Some(records[0].id) else FirstTask(records[1..])
  }

  /** A task started without an identity takes the one its observer allocated. */
  function TaskNamed(s: Snapshot, ev: Event, records: seq<Derived>): Snapshot {
    if ev.change.TaskStarted? && s.current.task == "" && FirstTask(records).Some? then
      var id, k := FirstTask(records).value, Key(EventTarget, ev.id);
      var named := s.(current := s.current.(task := id));
      if k in s.bindings then named.(bindings := s.bindings[k := s.bindings[k].(at := s.bindings[k].at.(task := id))]) else named
    else s
  }

  function Bound(s: Snapshot, ev: Event, records: seq<Derived>): Result<Snapshot> {
    BindAll(TaskNamed(s, ev, records), ev, records)
  }

  // ---- runs ----

  /** An event and the records derived from it. */
  datatype Input = Input(event: Event, records: seq<Derived>)

  /** What is committed for one input: everything, or an error and nothing. */
  ghost function Committed(s: Snapshot, input: Input): Result<Snapshot> {
    match Transition(s, input.event)
    case Err(e) => Err(e)
    case Ok(next) =>
      match Bound(next, input.event, input.records)
      case Err(e) => Err(e)
      case Ok(bound) => Ok(bound.(revision := s.revision + 1))
  }

  /** A run: rejected inputs leave the snapshot alone. */
  ghost function Run(s: Snapshot, inputs: seq<Input>): Snapshot
    decreases |inputs|
  {
    if inputs == [] then s
    else
      match Committed(s, inputs[0])
      case Err(_) => Run(s, inputs[1..])
      case Ok(next) => Run(next, inputs[1..])
  }
}
