/** The coherence state as the code keeps it, changed in place. */
module Coherence {
  import opened Paths
  import opened Snapshots
  import opened Eligibility
  import opened Cascade
  import opened Transitions

  // Maps are walked in whatever order they come; every method is proved to reach the one result the
  // transition functions name.

  /** One uncommitted transition. */
  class Candidate {
    const base: nat
    const event: Event
    var next: Snapshot

    constructor (base: nat, event: Event, next: Snapshot)
      ensures this.base == base && this.event == event && this.next == next
    {
      this.base, this.event, this.next := base, event, next;
    }

    // ---- walks over all bindings or paths ----

    method MarkMatchingStale(m: Match)
      modifies this
      ensures next == StaleMatching(old(next), m)
    {
      ghost var before := next.bindings;
      ghost var wanted := StaledBindings(before, m);
      var todo := next.bindings.Keys;
      while todo != {}
        invariant todo <= before.Keys && next.bindings.Keys == before.Keys
        invariant next == old(next).(bindings := next.bindings)
        invariant forall k :: k in before ==> next.bindings[k] == if k in todo then before[k] else wanted[k]
      {
        hide Hits, StaledBindings;
        var k :| k in todo;
        StaledHolds(before, m, k);
        var b := next.bindings[k];
        if b.mark.status == Active && Hits(m, b) {
          next := next.(bindings := next.bindings[k := b.(mark := MadeStale(b.mark))]);
        }
        todo := todo - {k};
      }
      assert next.bindings == wanted;
    }

    method MarkMatchingInvalidated(m: Match, reason: Reason) returns (ids: seq<string>)
      modifies this
      ensures next == old(next).(bindings := InvalidatedBindings(old(next).bindings, LiveHits(old(next).bindings, m), reason))
      ensures forall id :: id in ids <==> id in IdsOf(LiveHits(old(next).bindings, m))
    {
      ghost var before := next.bindings;
      ghost var hit := LiveHits(before, m);
      var todo := next.bindings.Keys;
      ids := [];
      assert hit - todo == {};
      NoneInvalidated(before, reason);
      while todo != {}
        invariant todo <= before.Keys && next.bindings.Keys == before.Keys
        invariant next == old(next).(bindings := next.bindings)
        invariant next.bindings == InvalidatedBindings(before, hit - todo, reason)
        invariant forall id :: id in ids <==> id in IdsOf(hit - todo)
      {
        hide Hits, IdsOf, InvalidatedBindings, LiveHits;
        var k :| k in todo;
        var b := next.bindings[k];
        InvalidatedStep(before, hit - todo, k, reason);
        LiveHitsHold(before, m, k);
        if b.mark.status != Invalidated && Hits(m, b) {
          next := next.(bindings := next.bindings[k := b.(mark := MadeInvalid(b.mark, reason))]);
          ids := ids + [k.id];
          assert hit - (todo - {k}) == (hit - todo) + {k};
          IdsOfOneMore(hit - todo, k);
        } else {
          assert hit - (todo - {k}) == hit - todo;
        }
        todo := todo - {k};
      }
      assert hit - {} == hit;
    }

    /** One round of the cascade: whatever depends on the id. */
    method InvalidateDependents(id: string, reason: Reason) returns (ids: seq<string>)
      modifies this
      ensures next == old(next).(bindings := InvalidatedBindings(old(next).bindings, Dependents(old(next).bindings, id), reason))
      ensures forall i :: i in ids <==> i in IdsOf(Dependents(old(next).bindings, id))
    {
      ghost var before := next.bindings;
      ghost var hit := Dependents(before, id);
      var todo := next.bindings.Keys;
      ids := [];
      assert hit - todo == {};
      NoneInvalidated(before, reason);
      while todo != {}
        invariant todo <= before.Keys && next.bindings.Keys == before.Keys
        invariant next == old(next).(bindings := next.bindings)
        invariant next.bindings == InvalidatedBindings(before, hit - todo, reason)
        invariant forall i :: i in ids <==> i in IdsOf(hit - todo)
      {
        hide DependsOn, IdsOf, InvalidatedBindings, Dependents;
        var k :| k in todo;
        var b := next.bindings[k];
        InvalidatedStep(before, hit - todo, k, reason);
        DependentsHold(before, id, k);
        if b.mark.status != Invalidated && DependsOn(b, id) {
          next := next.(bindings := next.bindings[k := b.(mark := MadeInvalid(b.mark, reason))]);
          ids := ids + [k.id];
          assert hit - (todo - {k}) == (hit - todo) + {k};
          IdsOfOneMore(hit - todo, k);
        } else {
          assert hit - (todo - {k}) == hit - todo;
        }
        todo := todo - {k};
      }
      assert hit - {} == hit;
    }

    /** The queue may hold an id more than once, in any order; the seen set drops the repeats. */
    method CascadeInvalidation(target: string, reason: Reason)
      modifies this
      ensures next == old(next).(bindings := Cascaded(old(next).bindings, {target}, reason))
    {
      hide IdsOf, Reached, DependsOn;
      ghost var before := next.bindings;
      ghost var hit: set<Key> := {};
      var queue := [target];
      var seen: set<string> := {};
      NoneInvalidated(before, reason);
      while queue != []
        invariant next == old(next).(bindings := next.bindings)
        invariant next.bindings == InvalidatedBindings(before, hit, reason)
        invariant hit <= ReachedSet(before, {target})
        invariant CascadeCovers(before, target, hit, queue, seen)
        decreases before.Keys - hit, |queue|
      {
        var current := queue[0];
        ghost var was := queue;
        queue := queue[1..];
        assert was == [current] + queue;
        if current !in seen {
          ghost var done := seen;
          seen := seen + {current};
          ghost var found := Dependents(next.bindings, current);
          var ids := InvalidateDependents(current, reason);
          CascadeRound(before, target, hit, queue, done, current, ids, reason);
          queue := queue + ids;
          hit := hit + found;
        } else {
          CascadeSkips(before, target, hit, was, seen);
        }
      }
      CascadeEnds(before, target, hit, seen);
    }

    method CascadeFrom(ids: seq<string>, reason: Reason)
      modifies this
      ensures next == old(next).(bindings := Cascaded(old(next).bindings, Members(ids), reason))
    {
      hide Cascaded;
      ghost var before := next.bindings;
      CascadedFromNone(before, reason);
      var i := 0;
      while i < |ids|
        invariant 0 <= i <= |ids|
        invariant next == old(next).(bindings := Cascaded(before, Members(ids[..i]), reason))
      {
        CascadeInvalidation(ids[i], reason);
        CascadesCombine(before, Members(ids[..i]), {ids[i]}, reason);
        MembersOneMore(ids, i);
        i := i + 1;
      }
      assert ids[..i] == ids;
    }

    /** Known active paths left at another commit. */
    method MarkPathsStale(at: Place)
      modifies this
      ensures next == old(next).(known := StaledPaths(old(next).known, at))
    {
      ghost var before := next.known;
      ghost var wanted := StaledPaths(before, at);
      var todo := next.known.Keys;
      while todo != {}
        invariant todo <= before.Keys && next.known.Keys == before.Keys
        invariant next == old(next).(known := next.known)
        invariant forall k :: k in before ==> next.known[k] == if k in todo then before[k] else wanted[k]
      {
        var k :| k in todo;
        var p := next.known[k];
        if p.mark.status == Active && k.repo == at.repo && k.branch == at.branch && p.commit != at.commit {
          next := next.(known := next.known[k := p.(mark := MadeStale(p.mark))]);
        }
        todo := todo - {k};
      }
      assert next.known == wanted;
    }

    // ---- epochs ----

    method NextScopeEpoch() returns (epoch: nat)
      modifies this
      ensures next == old(next).(clocks := Ticked(old(next).clocks)) && epoch == next.clocks.now
    {
      if next.clocks.now < MaxEpoch {
        next := next.(clocks := next.clocks.(now := next.clocks.now + 1));
      }
      epoch := next.clocks.now;
    }

    method EnterCommitScope()
      modifies this
      ensures next == old(next).(clocks := EnterCommit(old(next).clocks, old(next).current))
    {
      var at := next.current;
      if at.repo != "" && at.branch != "" && at.commit != "" {
        var epoch := NextScopeEpoch();
        next := next.(clocks := next.clocks.(commits := next.clocks.commits[CommitKey(at.repo, at.branch, at.commit) := epoch]));
      }
    }

    method EnterBranchScope()
      modifies this
      ensures next == old(next).(clocks := EnterBranch(old(next).clocks, old(next).current))
    {
      hide EnterCommit;
      var at := next.current;
      if at.repo != "" && at.branch != "" {
        var epoch := NextScopeEpoch();
        next := next.(clocks := next.clocks.(branches := next.clocks.branches[BranchKey(at.repo, at.branch) := epoch]));
      }
      EnterCommitScope();
    }

    method EnterCurrentScope()
      modifies this
      ensures next == old(next).(clocks := EnterScope(old(next).clocks, old(next).current))
    {
      hide EnterBranch;
      var at := next.current;
      if at.repo != "" {
        var epoch := NextScopeEpoch();
        next := next.(clocks := next.clocks.(repos := next.clocks.repos[at.repo := epoch]));
      }
      EnterBranchScope();
    }

    method BumpPathEpoch(k: PathKey) returns (epoch: nat)
      modifies this
      ensures next == old(next).(clocks := BumpPath(old(next).clocks, k)) && epoch == EpochOf(next.clocks.paths, k)
    {
      epoch := NextScopeEpoch();
      next := next.(clocks := next.clocks.(paths := next.clocks.paths[k := epoch]));
    }

    method EnsurePathEpoch(k: PathKey) returns (epoch: nat)
      modifies this
      ensures next == old(next).(clocks := EnsurePath(old(next).clocks, k)) && epoch == EpochOf(next.clocks.paths, k)
    {
      if EpochOf(next.clocks.paths, k) == 0 {
        epoch := BumpPathEpoch(k);
      }
      epoch := EpochOf(next.clocks.paths, k);
    }

    // ---- one event ----

    method ApplyTaskStarted()
      requires event.change.TaskStarted?
      modifies this
      ensures next == StartTask(old(next), event)
    {
      hide StaleMatching, EnterScope;
      if next.current.repo != event.at.repo {
        MarkMatchingStale(NotGlobal);
      }
      MarkMatchingStale(TaskBound);
      next := next.(current := TaskPlace(event));
      EnterCurrentScope();
      StalingFrame(old(next), NotGlobal);
      StalingFrame(if old(next).current.repo != event.at.repo then StaleMatching(old(next), NotGlobal) else old(next), TaskBound);
      MarkMatchingStale(OutOfScope(next.current, next.clocks));
    }

    method ApplyBranchChange() returns (err: Option<Error>)
      requires event.change.BranchChange?
      modifies this
      ensures Outcome(old(next), next, err, ChangeBranch(old(next), event))
    {
      hide StaleMatching, EnterBranch;
      if !Agrees(next.current.repo, event.at.repo) || !Agrees(next.current.branch, event.change.fromBranch) {
        return Some(InvalidTransition);
      }
      if event.change.fromCommit.Some? && !Agrees(next.current.commit, event.change.fromCommit.value) {
        return Some(InvalidTransition);
      }
      next := next.(current := Place(event.at.repo, next.current.task, event.at.branch, event.at.commit));
      EnterBranchScope();
      MarkMatchingStale(OutOfScopeInRepo(event.at.repo, next.current, next.clocks));
      err := None;
    }

    method ApplyCommitChange() returns (err: Option<Error>)
      requires event.change.CommitChange?
      modifies this
      ensures Outcome(old(next), next, err, ChangeCommit(old(next), event))
    {
      hide StaleMatching, EnterCommit, StaledPaths;
      if !RepoBranchCurrent(next, event.at) || !Agrees(next.current.commit, event.change.fromRevision) {
        return Some(InvalidTransition);
      }
      next := next.(current := next.current.(commit := event.at.commit));
      EnterCommitScope();
      MarkPathsStale(event.at);
      MarkMatchingStale(OutOfScopeInBranch(event.at.repo, event.at.branch, next.current, next.clocks));
      err := None;
    }

    method ApplyFileSnapshot() returns (err: Option<Error>)
      requires event.change.FileSnapshot?
      modifies this
      ensures Outcome(old(next), next, err, SnapshotFile(old(next), event))
    {
      hide BumpPath, EnsurePath, TerminalOverlap, StaledBindings;
      var k := PathKey(event.at.repo, event.at.branch, event.change.path);
      if !EnvelopeCurrent(next, event.at) || TerminalOverlap(next.known, event.at.repo, event.at.branch, event.change.path) {
        return Some(InvalidTransition);
      }
      var existed := k in next.known;
      var previous := EpochOf(next.clocks.paths, k);
      var epoch := EnsurePathEpoch(k);
      if existed && next.known[k].digest != event.change.digest {
        epoch := BumpPathEpoch(k);
      }
      assert next == old(next).(clocks := SnapshotClocks(old(next), event));
      if epoch != previous {
        MarkMatchingStale(Touching(event.at.repo, event.at.branch, [event.change.path]));
      }
      next := next.(known := next.known[k := PathState(event.at.commit, event.change.digest, NoMark, epoch, event.id)]);
      err := None;
    }

    method RenameEach(affected: seq<string>)
      modifies this
      ensures next == RenamePaths(old(next), event, affected)
    {
      hide BumpPath;
      var i := 0;
      while i < |affected|
        invariant 0 <= i <= |affected|
        invariant RenamePaths(next, event, affected[i..]) == RenamePaths(old(next), event, affected)
      {
        var k := PathKey(event.at.repo, event.at.branch, affected[i]);
        ghost var was := next;
        assert affected[i..][0] == affected[i] && affected[i..][1..] == affected[i + 1..];
        var p := if k in next.known then next.known[k] else NoPath;
        if p.mark.status != Invalidated {
          var epoch := BumpPathEpoch(k);
          next := next.(known := next.known[k := p.(mark := MadeStale(p.mark), epoch := epoch, evidence := event.id)]);
        }
        assert next == RenamePath(was, event, affected[i]);
        i := i + 1;
      }
    }

    method ApplyFileRenamed() returns (err: Option<Error>)
      requires event.change.FileRenamed?
      modifies this
      ensures Outcome(old(next), next, err, RenameFile(old(next), event))
    {
      hide RenamePaths, TerminalOverlap, StaleMatching, RenameAffects, RepoBranchCurrent;
      var from, to := event.change.from, event.change.to;
      if !RepoBranchCurrent(next, event.at)
         || TerminalOverlap(next.known, event.at.repo, event.at.branch, from) || TerminalOverlap(next.known, event.at.repo, event.at.branch, to) {
        return Some(InvalidTransition);
      }
      var affected := SortNames(RenameAffects(next, event.at, from, to));
      RenameEach(affected);
      var k := PathKey(event.at.repo, event.at.branch, to);
      next := next.(known := next.known[k :=
        PathState(next.current.commit, event.change.newDigest, NoMark, EpochOf(next.clocks.paths, k), event.id)]);
      MarkMatchingStale(Touching(event.at.repo, event.at.branch, [from, to]));
      err := None;
    }

    method InvalidateEach(paths: seq<string>, reason: Reason)
      modifies this
      ensures next == InvalidatePaths(old(next), event, reason, paths)
    {
      hide BumpPath;
      var i := 0;
      while i < |paths|
        invariant 0 <= i <= |paths|
        invariant InvalidatePaths(next, event, reason, paths[i..]) == InvalidatePaths(old(next), event, reason, paths)
      {
        var k := PathKey(next.current.repo, next.current.branch, paths[i]);
        ghost var was := next;
        assert paths[i..][0] == paths[i] && paths[i..][1..] == paths[i + 1..];
        if k in next.known && next.known[k].mark.status != Invalidated {
          var p := next.known[k];
          var epoch := BumpPathEpoch(k);
          next := next.(known := next.known[k := p.(mark := MadeInvalid(p.mark, reason), epoch := epoch, evidence := event.id)]);
        }
        assert next == InvalidatePath(was, event, reason, paths[i]);
        i := i + 1;
      }
    }

    method ApplyPathInvalidated() returns (err: Option<Error>)
      requires event.change.MemoryInvalidated?
      modifies this
      ensures Outcome(old(next), next, err, InvalidateFile(old(next), event))
    {
      hide InvalidatePaths, Cascaded, PathsBelow, LiveHits, InvalidatedBindings;
      var target, reason := event.change.target, event.change.reason;
      var k := PathKey(next.current.repo, next.current.branch, target);
      if k !in next.known || next.known[k].mark.status == Invalidated {
        return Some(InvalidTransition);
      }
      var affected := SortNames(PathsBelow(next, next.current, target));
      InvalidateEach(affected, reason);
      ghost var below := next;
      var ids := MarkMatchingInvalidated(TouchingAnywhere(target), reason);
      assert Members(ids) == IdsOf(LiveHits(below.bindings, TouchingAnywhere(target)));
      CascadeFrom(ids, reason);
      err := None;
    }

    method ApplyBindingInvalidated() returns (err: Option<Error>)
      requires event.change.MemoryInvalidated?
      modifies this
      ensures Outcome(old(next), next, err, InvalidateBinding(old(next), event))
    {
      hide Cascaded;
      var k := Key(event.change.kind, event.change.target);
      if k !in next.bindings || next.bindings[k].mark.status == Invalidated {
        return Some(InvalidTransition);
      }
      var b := next.bindings[k];
      next := next.(bindings := next.bindings[k := b.(mark := MadeInvalid(b.mark, event.change.reason))]);
      CascadeInvalidation(event.change.target, event.change.reason);
      err := None;
    }

    method ApplyRevalidation() returns (err: Option<Error>)
      requires event.change.MemoryRevalidated?
      modifies this
      ensures Outcome(old(next), next, err, Revalidate(old(next), event))
    {
      hide EligibleEvidence, EnsurePath, PathReady, Captured;
      var target := event.change.staleTarget;
      if !EligibleEvidence(next, event.change.evidenceRef) {
        return Some(InvalidTransition);
      }
      if event.change.staleKind == PathTarget {
        var k := PathKey(next.current.repo, next.current.branch, target);
        if k !in next.known || next.known[k].mark.status != Stale {
          return Some(InvalidTransition);
        }
        var p := next.known[k];
        if p.mark.revision != event.change.expected {
          return Some(StaleRevision);
        }
        if p.digest != "" && p.digest != event.change.sourceDigest {
          return Some(InvalidTransition);
        }
        var epoch := EnsurePathEpoch(k);
        next := next.(known := next.known[k := PathState(next.current.commit, p.digest, Mark(Active, p.mark.revision, NoReason), epoch, event.id)]);
        return None;
      }
      err := RevalidateBound(Key(event.change.staleKind, target));
    }

    method RevalidateBound(k: Key) returns (err: Option<Error>)
      requires event.change.MemoryRevalidated? && k == Key(event.change.staleKind, event.change.staleTarget)
      modifies this
      ensures Outcome(old(next), next, err, RevalidateBinding(old(next), event))
    {
      hide EligibleEvidence, PathReady, Captured;
      if k !in next.bindings || next.bindings[k].mark.status != Stale {
        return Some(InvalidTransition);
      }
      var b := next.bindings[k];
      if b.mark.revision != event.change.expected {
        return Some(StaleRevision);
      }
      if k.kind == PageTarget && b.digest != "" && b.digest != event.change.sourceDigest {
        return Some(InvalidTransition);
      }
      var i := 0;
      while i < |b.paths|
        invariant 0 <= i <= |b.paths| && next == old(next)
        invariant forall p :: p in b.paths[..i] ==> PathReady(next, p)
      {
        if !PathReady(next, b.paths[i]) {
          return Some(InvalidTransition);
        }
        i := i + 1;
      }
      assert b.paths[..i] == b.paths;
      i := 0;
      while i < |b.refs|
        invariant 0 <= i <= |b.refs| && next == old(next)
        invariant forall r :: r in b.refs[..i] ==> EligibleEvidence(next, r)
      {
        if !EligibleEvidence(next, b.refs[i]) {
          return Some(InvalidTransition);
        }
        i := i + 1;
      }
      assert b.refs[..i] == b.refs;
      var at := PlaceNeeded(b.needs, next.current);
      next := next.(bindings := next.bindings[k := Captured(b.(mark := Mark(Active, b.mark.revision, NoReason), at := at), next.clocks)]);
      err := None;
    }

    /** The result does not depend on the order any map was walked in, and a refused event has
        changed nothing. */
    method ApplyEvent() returns (err: Option<Error>)
      modifies this
      ensures Outcome(old(next), next, err, Applied(old(next), event))
    {
      hide StartTask, ChangeBranch, ChangeCommit, SnapshotFile, RenameFile, InvalidateFile, InvalidateBinding, Revalidate;
      err := None;
      match event.change {
        case TaskStarted(_) => ApplyTaskStarted();
        case BranchChange(_, _) => err := ApplyBranchChange();
        case CommitChange(_) => err := ApplyCommitChange();
        case FileSnapshot(_, _) => err := ApplyFileSnapshot();
        case FileRenamed(_, _, _) => err := ApplyFileRenamed();
        case MemoryInvalidated(kind, _, _) =>
          if kind == PathTarget {
            err := ApplyPathInvalidated();
          } else {
            err := ApplyBindingInvalidated();
          }
        case MemoryRevalidated(_, _, _, _, _) => err := ApplyRevalidation();
        case _ =>
      }
    }

    method BindEvent()
      modifies this
      ensures next == EventBound(old(next), event)
    {
      hide EventBinding;
      next := next.(bindings := next.bindings[Key(EventTarget, event.id) := EventBinding(next, event)]);
    }

    /** An error leaves the candidate half bound; its owner drops it. */
    method BindUpdates(records: seq<Derived>) returns (err: Option<Error>)
      modifies this
      ensures match Bound(old(next), event, records)
              case Ok(bound) => err == None && next == bound
              case Err(e) => err == Some(e)
    {
      hide DerivedBinding;
      if event.change.TaskStarted? && next.current.task == "" {
        var first := FirstTask(records);
        if first.Some? {
          var k := Key(EventTarget, event.id);
          next := next.(current := next.current.(task := first.value));
          if k in next.bindings {
            var b := next.bindings[k];
            next := next.(bindings := next.bindings[k := b.(at := b.at.(task := first.value))]);
          }
        }
      }
      assert next == TaskNamed(old(next), event, records);
      var i := 0;
      while i < |records|
        invariant 0 <= i <= |records|
        invariant BindAll(next, event, records[i..]) == Bound(old(next), event, records)
      {
        assert records[i..][0] == records[i] && records[i..][1..] == records[i + 1..];
        match DerivedBinding(next, event, records[i]) {
          case Err(e) => return Some(e);
          case Ok(None) =>
          case Ok(Some((k, b))) => next := next.(bindings := next.bindings[k := b]);
        }
        i := i + 1;
      }
      err := None;
    }
  }

  /** How a step ends: in the state the function names, or with its error and nothing changed. */
  ghost predicate Outcome(before: Snapshot, after: Snapshot, err: Option<Error>, result: Result<Snapshot>) {
    match result
    case Ok(s) => err == None && after == s
    case Err(e) => err == Some(e) && after == before
  }

  lemma StaledHolds(before: Bindings, m: Match, k: Key)
    requires k in before
    ensures var wanted := StaledBindings(before, m);
            && wanted.Keys == before.Keys
            && wanted[k] == if before[k].mark.status == Active && Hits(m, before[k]) then before[k].(mark := MadeStale(before[k].mark)) else before[k]
  {
  }

  lemma StalingFrame(s: Snapshot, m: Match)
    ensures StaleMatching(s, m) == s.(bindings := StaleMatching(s, m).bindings)
  {
  }

  // ---- proof of the cascade ----

  lemma IdsOfOneMore(keys: set<Key>, k: Key)
    ensures IdsOf(keys + {k}) == IdsOf(keys) + {k.id}
  {
  }

  function Members(ids: seq<string>): set<string> {
    set i | i in ids
  }

  lemma MembersOneMore(ids: seq<string>, i: nat)
    requires i < |ids|
    ensures Members(ids[..i + 1]) == Members(ids[..i]) + {ids[i]}
  {
    assert ids[..i + 1] == ids[..i] + [ids[i]];
  }

  lemma NoneInvalidated(bindings: Bindings, reason: Reason)
    ensures InvalidatedBindings(bindings, {}, reason) == bindings
  {
  }

  lemma CascadedFromNone(bindings: Bindings, reason: Reason)
    ensures Cascaded(bindings, Members([]), reason) == bindings
  {
    hide Live, DependsOn;
    assert Members([]) == {};
    assert forall chain :: !Chain(bindings, {}, chain);
    assert ReachedSet(bindings, {}) == {};
    NoneInvalidated(bindings, reason);
  }

  /** Everything invalidated was live and is queued or done; nothing left live depends on what is done. */
  ghost predicate CascadeCovers(before: Bindings, target: string, hit: set<Key>, queue: seq<string>, seen: set<string>) {
    && (forall k :: k in hit ==> Live(before, k) && (k.id in seen || k.id in queue))
    && (target in seen || target in queue)
    && (forall id :: id in queue || id in seen ==> id == target || exists k :: k in hit && k.id == id)
    && (forall k, id :: Live(before, k) && k !in hit && id in seen ==> !DependsOn(before[k], id))
  }

  lemma CascadeSkips(before: Bindings, target: string, hit: set<Key>, queue: seq<string>, seen: set<string>)
    requires queue != [] && queue[0] in seen && CascadeCovers(before, target, hit, queue, seen)
    ensures CascadeCovers(before, target, hit, queue[1..], seen)
  {
    hide DependsOn, Live;
    assert queue == [queue[0]] + queue[1..];
    assert forall id :: id in queue <==> id == queue[0] || id in queue[1..];
  }

  /** What one round finds. */
  lemma RoundFinds(before: Bindings, hit: set<Key>, current: string, reason: Reason)
    ensures var found := Dependents(InvalidatedBindings(before, hit, reason), current);
            forall k :: k in found <==> Live(before, k) && k !in hit && DependsOn(before[k], current)
  {
    hide DependsOn;
    EdgesStay(before, hit, reason, current);
  }

  lemma FoundIsReached(before: Bindings, target: string, hit: set<Key>, current: string, k: Key)
    requires hit <= ReachedSet(before, {target})
    requires current == target || exists j :: j in hit && j.id == current
    requires Live(before, k) && DependsOn(before[k], current)
    ensures k in ReachedSet(before, {target})
  {
    hide DependsOn, Reached;
    if current == target {
      ReachedFirst(before, {target}, k, target);
    } else {
      var j :| j in hit && j.id == current;
      ReachedNext(before, {target}, j, k);
    }
  }

  lemma CascadeRound(
      before: Bindings, target: string, hit: set<Key>, queue: seq<string>, seen: set<string>,
      current: string, ids: seq<string>, reason: Reason)
    requires CascadeCovers(before, target, hit, [current] + queue, seen)
    requires hit <= ReachedSet(before, {target})
    requires forall i :: i in ids <==> i in IdsOf(Dependents(InvalidatedBindings(before, hit, reason), current))
    ensures var mid := InvalidatedBindings(before, hit, reason); var found := Dependents(mid, current);
            && found <= before.Keys && found !! hit
            && hit + found <= ReachedSet(before, {target})
            && InvalidatedBindings(mid, found, reason) == InvalidatedBindings(before, hit + found, reason)
            && CascadeCovers(before, target, hit + found, queue + ids, seen + {current})
            && (found == {} ==> ids == [])
  {
    hide DependsOn, Reached, Dependents, InvalidatedBindings, ReachedSet, CascadeCovers;
    var found := Dependents(InvalidatedBindings(before, hit, reason), current);
    RoundFinds(before, hit, current, reason);
    CoversQueued(before, target, hit, [current] + queue, seen, current);
    forall k | k in found
      ensures k in ReachedSet(before, {target})
    {
      FoundIsReached(before, target, hit, current, k);
    }
    InvalidatedTwice(before, hit, found, reason);
    CoversGrows(before, target, hit, queue, seen, current, found, ids);
    assert ids != [] ==> ids[0] in ids;
  }

  lemma CoversQueued(before: Bindings, target: string, hit: set<Key>, queue: seq<string>, seen: set<string>, id: string)
    requires CascadeCovers(before, target, hit, queue, seen) && id in queue
    ensures id == target || exists j :: j in hit && j.id == id
  {
  }

  lemma CoversGrows(
      before: Bindings, target: string, hit: set<Key>, queue: seq<string>, seen: set<string>,
      current: string, found: set<Key>, ids: seq<string>)
    requires CascadeCovers(before, target, hit, [current] + queue, seen)
    requires forall k :: k in found <==> Live(before, k) && k !in hit && DependsOn(before[k], current)
    requires forall i :: i in ids <==> i in IdsOf(found)
    ensures CascadeCovers(before, target, hit + found, queue + ids, seen + {current})
  {
    hide DependsOn, Live;
    assert forall id :: id in [current] + queue <==> id == current || id in queue;
    assert forall id :: id in queue + ids <==> id in queue || id in ids;
    forall id | id in queue + ids || id in seen + {current}
      ensures id == target || exists k :: k in hit + found && k.id == id
    {
      if id in ids {
        var k :| k in found && k.id == id;
        assert k in hit + found;
      } else {
        assert id in [current] + queue || id in seen;
        if id != target {
          var k :| k in hit && k.id == id;
          assert k in hit + found;
        }
      }
    }
  }

  lemma InvalidatedStep(before: Bindings, hit: set<Key>, k: Key, reason: Reason)
    requires k in before && k !in hit
    ensures var mid := InvalidatedBindings(before, hit, reason);
            && mid.Keys == before.Keys && mid[k] == before[k]
            && mid[k := before[k].(mark := MadeInvalid(before[k].mark, reason))] == InvalidatedBindings(before, hit + {k}, reason)
  {
  }

  lemma LiveHitsHold(before: Bindings, m: Match, k: Key)
    requires k in before
    ensures k in LiveHits(before, m) <==> before[k].mark.status != Invalidated && Hits(m, before[k])
  {
  }

  lemma DependentsHold(before: Bindings, id: string, k: Key)
    requires k in before
    ensures k in Dependents(before, id) <==> before[k].mark.status != Invalidated && DependsOn(before[k], id)
  {
  }

  lemma EdgesStay(before: Bindings, hit: set<Key>, reason: Reason, id: string)
    ensures forall k :: k in before ==> DependsOn(InvalidatedBindings(before, hit, reason)[k], id) == DependsOn(before[k], id)
  {
  }

  lemma CascadeEnds(before: Bindings, target: string, hit: set<Key>, seen: set<string>)
    requires CascadeCovers(before, target, hit, [], seen) && hit <= ReachedSet(before, {target})
    ensures hit == ReachedSet(before, {target})
  {
    hide DependsOn, Reached;
    ReachedIsLeast(before, {target}, hit);
  }

  // ---- the committed state ----

  class State {
    var snapshot: Snapshot

    constructor ()
      ensures snapshot == Empty
    {
      snapshot := Empty;
    }

    /** A candidate for the event on top of the present state, which it does not touch. */
    method Prepare(ev: Event) returns (c: Candidate?, err: Option<Error>)
      ensures match Transition(snapshot, ev)
              case Ok(next) => err == None && c != null && fresh(c) && c.base == snapshot.revision && c.event == ev && c.next == next
              case Err(e) => err == Some(e) && c == null
    {
      hide Applied, EventBound;
      if ev.id == "" {
        return null, Some(InvalidTransition);
      }
      var candidate := new Candidate(snapshot.revision, ev, snapshot);
      err := candidate.ApplyEvent();
      if err != None {
        return null, err;
      }
      candidate.BindEvent();
      c := candidate;
    }

    /** Installs the candidate if and only if no other was installed since it was prepared. */
    method Commit(c: Candidate) returns (err: Option<Error>)
      modifies this
      ensures old(snapshot).revision == c.base ==> err == None && snapshot == c.next.(revision := c.base + 1)
      ensures old(snapshot).revision != c.base ==> err == Some(InvalidTransition) && snapshot == old(snapshot)
    {
      if snapshot.revision != c.base {
        return Some(InvalidTransition);
      }
      snapshot := c.next.(revision := snapshot.revision + 1);
      err := None;
    }

    /** The end of a transition that held the state from its start: no other can have come between. */
    method Install(c: Candidate)
      requires c.base == snapshot.revision
      modifies this
      ensures snapshot == c.next.(revision := c.base + 1)
    {
      snapshot := c.next.(revision := snapshot.revision + 1);
    }

    /** Of two candidates prepared from the same state, the second is refused. */
    method CommitBoth(first: Candidate, second: Candidate) returns (err: Option<Error>)
      requires first.base == second.base
      modifies this
      ensures err == Some(InvalidTransition)
      ensures old(snapshot).revision == first.base ==> snapshot == first.next.(revision := first.base + 1)
      ensures old(snapshot).revision != first.base ==> snapshot == old(snapshot)
    {
      err := Commit(first);
      err := Commit(second);
    }
  }
}
