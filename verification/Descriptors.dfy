/** Page descriptors and the number that stands for epochs. */
module Descriptors {
  import opened Paths
  import opened Snapshots
  import opened Eligibility
  import opened Transitions
  import opened EpochHistory
  import opened PathHistory

  // Whether a cached or indexed page may be served, and the one number that stands for all the epochs it
  // was captured at.

  // ---- the generation of a binding ----

  function Newer(a: nat, b: nat): nat {
    if b > a then b else a
  }

  function MaxPathEpoch(paths: seq<string>, epochs: map<string, nat>): nat {
    if paths == [] then 0 else Newer(MaxPathEpoch(paths[..|paths| - 1], epochs), EpochOf(epochs, paths[|paths| - 1]))
  }

  /** The newest epoch a binding was captured at, of those that gate it. */
  function Generation(b: Binding): nat {
    Newer(Newer(if b.needs.branch then b.epochs.branch else 0, if b.needs.commit then b.epochs.commit else 0),
          MaxPathEpoch(b.paths, b.epochs.paths))
  }

  lemma {:induction false} MaxPathEpochIsGreatest(paths: seq<string>, epochs: map<string, nat>)
    ensures forall p :: p in paths ==> EpochOf(epochs, p) <= MaxPathEpoch(paths, epochs)
    ensures MaxPathEpoch(paths, epochs) == 0 || exists p :: p in paths && EpochOf(epochs, p) == MaxPathEpoch(paths, epochs)
  {
    if paths != [] {
      var front, last := paths[..|paths| - 1], paths[|paths| - 1];
      MaxPathEpochIsGreatest(front, epochs);
      assert paths == front + [last];
      if MaxPathEpoch(front, epochs) > EpochOf(epochs, last) && MaxPathEpoch(front, epochs) != 0 {
        var p :| p in front && EpochOf(epochs, p) == MaxPathEpoch(front, epochs);
        assert p in paths;
      } else {
        assert last in paths;
      }
    }
  }

  /** The components of a capture that gate the binding are the same. */
  ghost predicate SameCapture(a: Binding, b: Binding)
    requires a.needs == b.needs && a.paths == b.paths
  {
    && (a.needs.branch ==> a.epochs.branch == b.epochs.branch)
    && (a.needs.commit ==> a.epochs.commit == b.epochs.commit)
    && (forall p :: p in a.paths ==> EpochOf(a.epochs.paths, p) == EpochOf(b.epochs.paths, p))
  }

  lemma {:induction false} SameEpochsSameMax(paths: seq<string>, a: map<string, nat>, b: map<string, nat>)
    requires forall p :: p in paths ==> EpochOf(a, p) == EpochOf(b, p)
    ensures MaxPathEpoch(paths, a) == MaxPathEpoch(paths, b)
  {
    if paths != [] {
      var front := paths[..|paths| - 1];
      assert forall p :: p in front ==> p in paths;
      assert paths[|paths| - 1] in paths;
      SameEpochsSameMax(front, a, b);
    }
  }

  lemma CapturedGenerationBounded(b: Binding, c: Clocks)
    requires Bounded(c)
    ensures Generation(Captured(b, c)) <= c.now
  {
    hide EpochOf;
    var g := Captured(b, c);
    MaxPathEpochIsGreatest(g.paths, g.epochs.paths);
    CapturedEpochs(b, c);
    if MaxPathEpoch(g.paths, g.epochs.paths) != 0 {
      var p :| p in g.paths && EpochOf(g.epochs.paths, p) == MaxPathEpoch(g.paths, g.epochs.paths);
    }
  }

  lemma CapturedEpochs(b: Binding, c: Clocks)
    ensures forall p :: p in b.paths ==> EpochOf(Captured(b, c).epochs.paths, p) == EpochOf(c.paths, PathKey(b.at.repo, b.at.branch, p))
  {
  }

  lemma GenerationCovers(b: Binding)
    ensures b.needs.branch ==> b.epochs.branch <= Generation(b)
    ensures b.needs.commit ==> b.epochs.commit <= Generation(b)
    ensures forall p :: p in b.paths ==> EpochOf(b.epochs.paths, p) <= Generation(b)
  {
    MaxPathEpochIsGreatest(b.paths, b.epochs.paths);
  }

  /** The single number is a faithful summary: as long as the clock is not exhausted, a binding captured
      at two points has the same generation exactly when none of its gating epochs changed between. */
  lemma GenerationIsFaithful(b: Binding, c: Clocks, d: Clocks)
    requires Bounded(c) && Advances(c, d) && d.now < MaxEpoch
    ensures Generation(Captured(b, c)) == Generation(Captured(b, d)) <==> SameCapture(Captured(b, c), Captured(b, d))
  {
    hide EpochOf, Generation, MaxPathEpoch;
    var x, y := Captured(b, c), Captured(b, d);
    CapturedGenerationBounded(b, c);
    CapturedEpochs(b, c);
    CapturedEpochs(b, d);
    GenerationCovers(y);
    if SameCapture(x, y) {
      SameGeneration(x, y);
    } else if x.needs.branch && x.epochs.branch != y.epochs.branch {
      assert y.epochs.branch > c.now;
    } else if x.needs.commit && x.epochs.commit != y.epochs.commit {
      assert y.epochs.commit > c.now;
    } else {
      var p :| p in x.paths && EpochOf(x.epochs.paths, p) != EpochOf(y.epochs.paths, p);
      assert EpochOf(y.epochs.paths, p) > c.now;
    }
  }

  /** The same over any run of a session. */
  lemma {:induction false} GenerationFaithfulOverRuns(s: Snapshot, inputs: seq<Input>, b: Binding)
    requires Bounded(s.clocks) && Run(s, inputs).clocks.now < MaxEpoch
    ensures Generation(Captured(b, s.clocks)) == Generation(Captured(b, Run(s, inputs).clocks))
       <==> SameCapture(Captured(b, s.clocks), Captured(b, Run(s, inputs).clocks))
  {
    hide Run, Bounded, Advances, Captured, Generation, SameCapture;
    RunAdvances(s, inputs);
    GenerationIsFaithful(b, s.clocks, Run(s, inputs).clocks);
  }

  lemma SameGeneration(a: Binding, b: Binding)
    requires a.needs == b.needs && a.paths == b.paths && SameCapture(a, b)
    ensures Generation(a) == Generation(b)
  {
    SameEpochsSameMax(a.paths, a.epochs.paths, b.epochs.paths);
  }

  // ---- the status of a descriptor ----

  datatype Descriptor = Descriptor(
    id: string, refs: seq<string>, scope: ScopeName, branch: string, commit: string, paths: seq<string>, digest: string, epoch: nat)

  datatype Verdict = Verdict(status: Status, revision: nat)

  function Ineligible(b: Binding): Verdict {
    if b.mark.status == Invalidated then Verdict(Invalidated, b.mark.revision)
    else Verdict(Stale, if b.mark.revision == 0 then 1 else b.mark.revision)
  }

  predicate MatchesBinding(d: Descriptor, b: Binding) {
    && d.scope == b.scope && d.paths == b.paths && d.digest == b.digest && d.epoch == Generation(b)
    && (BranchScoped(b) ==> d.branch == b.at.branch) && (b.needs.commit ==> d.commit == b.at.commit)
  }

  function MaxKnownEpoch(c: Clocks, repo: string, branch: string, paths: seq<string>): nat {
    if paths == [] then 0
    else Newer(MaxKnownEpoch(c, repo, branch, paths[..|paths| - 1]), EpochOf(c.paths, PathKey(repo, branch, paths[|paths| - 1])))
  }

  function CurrentGeneration(s: Snapshot, d: Descriptor): nat {
    Newer(
      Newer(if d.scope == BranchScope || d.scope == FileScope then EpochOf(s.clocks.branches, BranchKey(s.current.repo, d.branch)) else 0,
            if d.commit != "" then EpochOf(s.clocks.commits, CommitKey(s.current.repo, d.branch, d.commit)) else 0),
      MaxKnownEpoch(s.clocks, s.current.repo, d.branch, d.paths))
  }

  predicate MatchesScope(s: Snapshot, d: Descriptor) {
    && d.scope != NoScope
    && (d.scope == BranchScope || d.scope == FileScope ==> d.branch == s.current.branch)
    && (d.commit != "" ==> d.commit == s.current.commit)
    && (forall p :: p in d.paths ==>
          var k := PathKey(s.current.repo, s.current.branch, p);
          (k in s.known ==> s.known[k].mark.status == Active) && !TerminalOverlap(s.known, s.current.repo, s.current.branch, p))
    && d.epoch == CurrentGeneration(s, d)
  }

  function DirectKey(s: Snapshot, id: string): Transitions.Option<Key> {
    if Key(RecordTarget, id) in s.bindings then Some(Key(RecordTarget, id))
    else if Key(PageTarget, id) in s.bindings then Some(Key(PageTarget, id))
    else None
  }

  /** The first ineligible binding a reference is found under, in the order of the kinds. */
  function RefFault(s: Snapshot, ref: string): Transitions.Option<Verdict> {
    var r, e, p := Key(RecordTarget, ref), Key(EventTarget, ref), Key(PageTarget, ref);
    if r in s.bindings && !Eligible(s, r) then Some(Ineligible(s.bindings[r]))
    else if e in s.bindings && !Eligible(s, e) then Some(Ineligible(s.bindings[e]))
    else if p in s.bindings && !Eligible(s, p) then Some(Ineligible(s.bindings[p]))
    else if r !in s.bindings && e !in s.bindings && p !in s.bindings then Some(Verdict(Stale, 1))
    else None
  }

  function RefsFault(s: Snapshot, refs: seq<string>): Transitions.Option<Verdict> {
    if refs == [] then None
    else if RefFault(s, refs[0]).Some? then RefFault(s, refs[0])
    else RefsFault(s, refs[1..])
  }

  function PageStatus(s: Snapshot, d: Descriptor): Verdict {
    var direct := DirectKey(s, d.id);
    if direct.Some? && !Eligible(s, direct.value) then Ineligible(s.bindings[direct.value])
    else if RefsFault(s, d.refs).Some? then RefsFault(s, d.refs).value
    else if direct.Some? then
      var b := s.bindings[direct.value];
      if MatchesBinding(d, b) then Verdict(Active, 0) else Verdict(Stale, if b.mark.revision == 0 then 1 else b.mark.revision)
    else if d.refs == [] || !MatchesScope(s, d) then Verdict(Stale, 1)
    else Verdict(Active, 0)
  }

  /** Every reference resolves, and is eligible under every kind it is bound as. */
  ghost predicate RefsUsable(s: Snapshot, refs: seq<string>) {
    forall r :: r in refs ==> Dependencies(s, r) != {} && forall k :: k in Dependencies(s, r) ==> k in s.bindings && Eligible(s, k)
  }

  lemma RefFaultExactly(s: Snapshot, ref: string)
    ensures RefFault(s, ref).None? <==>
            Dependencies(s, ref) != {} && forall k :: k in Dependencies(s, ref) ==> k in s.bindings && Eligible(s, k)
    ensures RefFault(s, ref).Some? ==> RefFault(s, ref).value.status != Active
  {
    hide Eligible;
    EligibleIsActive(s);
    var r, e, p := Key(RecordTarget, ref), Key(EventTarget, ref), Key(PageTarget, ref);
    assert forall k :: k in Dependencies(s, ref) <==> (k == r || k == e || k == p) && k in s.bindings;
    if r in s.bindings { assert r in Dependencies(s, ref); }
    if e in s.bindings { assert e in Dependencies(s, ref); }
    if p in s.bindings { assert p in Dependencies(s, ref); }
  }

  lemma EligibleIsActive(s: Snapshot)
    ensures forall k :: k in s.bindings && Eligible(s, k) ==> LocallyEligible(s, k)
  {
    hide LocallyEligible;
  }

  lemma {:induction false} RefsFaultExactly(s: Snapshot, refs: seq<string>)
    ensures RefsFault(s, refs).None? <==> RefsUsable(s, refs)
    ensures RefsFault(s, refs).Some? ==> RefsFault(s, refs).value.status != Active
  {
    hide RefFault, Dependencies, Eligible;
    if refs != [] {
      RefFaultExactly(s, refs[0]);
      RefsFaultExactly(s, refs[1..]);
      assert refs == [refs[0]] + refs[1..];
    }
  }

  /** A descriptor is served exactly when its own binding, if there is one, is eligible and is the one it
      was made from, everything it refers to is eligible, and, with no binding of its own, it refers to
      something and fits the current scope. */
  lemma ActiveExactly(s: Snapshot, d: Descriptor)
    ensures PageStatus(s, d).status == Active <==>
            && RefsUsable(s, d.refs)
            && match DirectKey(s, d.id)
               case Some(k) => Eligible(s, k) && MatchesBinding(d, s.bindings[k])
               case None => d.refs != [] && MatchesScope(s, d)
  {
    hide Eligible, RefsFault, RefsUsable, MatchesBinding, MatchesScope;
    RefsFaultExactly(s, d.refs);
  }

  /** A served descriptor with a binding of its own, in a truthful state: every path it covers is at the
      epoch the descriptor's binding was captured at, none is known to be stale, and none is under an
      invalidated path. */
  lemma ServedDescriptorIsCurrent(s: Snapshot, d: Descriptor)
    requires Truthful(s) && PageStatus(s, d).status == Active && DirectKey(s, d.id).Some?
    ensures var b := s.bindings[DirectKey(s, d.id).value];
            PathsCurrent(b, s.clocks) && d.paths == b.paths && d.epoch == Generation(b)
            && forall p :: p in d.paths ==> PathUsable(s, b, p)
  {
    hide PathsCurrent, PathUsable, DeadClosed, KnownHaveEpochs, RefsUsable, Eligible, Generation, PageStatus, MatchesScope;
    ActiveExactly(s, d);
    EligibleIsActive(s);
  }
}
