/** Which bindings may be used: a walk along references with the path so far on a stack. */
module Eligibility {
  import opened Paths
  import opened Snapshots

  /** The kinds a logical reference is looked up under. */
  const RefKinds: set<TargetKind> := {RecordTarget, EventTarget, PageTarget}

  function Dependencies(s: Snapshot, ref: string): set<Key> {
    set kind | kind in RefKinds && Key(kind, ref) in s.bindings :: Key(kind, ref)
  }

  /** Everything the gate checks about one binding, references aside. */
  predicate LocallyEligible(s: Snapshot, k: Key)
    requires k in s.bindings
  {
    var b := s.bindings[k];
    && b.mark.status == Active
    && (k.kind == PageTarget ==> b.refs != [])
    && (b.needs.repo ==> b.at.repo == s.current.repo)
    && (b.needs.task ==> b.at.task == s.current.task)
    && (BranchScoped(b) ==> MatchesCurrent(b, s.current, s.clocks))
    && (forall p :: p in b.paths ==> PathUsable(s, b, p))
  }

  predicate PathUsable(s: Snapshot, b: Binding, p: string) {
    var k := PathKey(b.at.repo, b.at.branch, p);
    && (k in s.known ==> s.known[k].mark.status == Active)
    && EpochOf(b.epochs.paths, p) == EpochOf(s.clocks.paths, k)
    && !TerminalOverlap(s.known, b.at.repo, b.at.branch, p)
  }

  // ---- the code ----

  predicate EligibleStack(s: Snapshot, k: Key, stack: set<Key>)
    requires k in s.bindings
    decreases |s.bindings.Keys - stack|, 1, 0
  {
    if k in stack then false
    else if !LocallyEligible(s, k) then false
    else
      StackGrows(s, k, stack);
      RefsEligible(s, s.bindings[k].refs, stack + {k})
  }

  /** The loop over the references: each must be found, and be eligible under every kind it is found. */
  predicate RefsEligible(s: Snapshot, refs: seq<string>, stack: set<Key>)
    decreases |s.bindings.Keys - stack|, 2, |refs|
  {
    refs == []
    || (Dependencies(s, refs[0]) != {}
        && (forall d :: d in Dependencies(s, refs[0]) ==> EligibleStack(s, d, stack))
        && RefsEligible(s, refs[1..], stack))
  }

  lemma StackGrows(s: Snapshot, k: Key, stack: set<Key>)
    requires k in s.bindings && k !in stack
    ensures |s.bindings.Keys - (stack + {k})| == |s.bindings.Keys - stack| - 1
  {
    assert s.bindings.Keys - (stack + {k}) == (s.bindings.Keys - stack) - {k};
    assert k in s.bindings.Keys - stack;
  }

  predicate Eligible(s: Snapshot, k: Key)
    requires k in s.bindings
  {
    EligibleStack(s, k, {})
  }

  // ---- one node, seen from the graph ----

  function Successors(s: Snapshot, k: Key): set<Key>
    requires k in s.bindings
  {
    set i, d | 0 <= i < |s.bindings[k].refs| && d in Dependencies(s, s.bindings[k].refs[i]) :: d
  }

  /** Locally eligible, and every reference resolves to something. */
  predicate Sound(s: Snapshot, k: Key) {
    k in s.bindings && LocallyEligible(s, k)
    && forall i :: 0 <= i < |s.bindings[k].refs| ==> Dependencies(s, s.bindings[k].refs[i]) != {}
  }

  lemma {:induction false} RefsEligibleEach(s: Snapshot, refs: seq<string>, stack: set<Key>)
    ensures RefsEligible(s, refs, stack) <==>
            forall i :: 0 <= i < |refs| ==>
              Dependencies(s, refs[i]) != {} && forall d :: d in Dependencies(s, refs[i]) ==> EligibleStack(s, d, stack)
  {
    hide EligibleStack, Dependencies;
    if refs != [] {
      RefsEligibleEach(s, refs[1..], stack);
      assert forall i :: 0 < i < |refs| ==> refs[i] == refs[1..][i - 1];
      assert forall i :: 0 <= i < |refs| - 1 ==> refs[1..][i] == refs[i + 1];
    }
  }

  lemma EligibleUnfolds(s: Snapshot, k: Key, stack: set<Key>)
    requires k in s.bindings
    ensures EligibleStack(s, k, stack) <==>
            k !in stack && Sound(s, k) && forall d :: d in Successors(s, k) ==> EligibleStack(s, d, stack + {k})
  {
    hide RefsEligible, Dependencies, LocallyEligible;
    if k !in stack {
      RefsEligibleEach(s, s.bindings[k].refs, stack + {k});
    }
  }

  lemma SuccessorsAreBound(s: Snapshot, k: Key)
    requires k in s.bindings
    ensures forall d :: d in Successors(s, k) ==> d in s.bindings
  {
  }

  // ---- the least fixpoint ----

  /** The bindings found eligible in n rounds, starting from none. */
  ghost function Stage(s: Snapshot, n: nat): set<Key> {
    if n == 0 then {}
    else set k | k in s.bindings && Sound(s, k) && Successors(s, k) <= Stage(s, n - 1)
  }

  lemma {:induction false} StageGrows(s: Snapshot, n: nat)
    ensures Stage(s, n) <= Stage(s, n + 1)
  {
    hide Sound, Successors;
    if n > 0 { StageGrows(s, n - 1); }
  }

  lemma {:induction false} StageMonotone(s: Snapshot, m: nat, n: nat)
    requires m <= n
    ensures Stage(s, m) <= Stage(s, n)
    decreases n
  {
    hide Stage;
    if m < n {
      StageMonotone(s, m, n - 1);
      StageGrows(s, n - 1);
    }
  }

  lemma {:induction false} EligibleIsStaged(s: Snapshot, k: Key, stack: set<Key>)
    requires k in s.bindings && EligibleStack(s, k, stack)
    ensures k in Stage(s, |s.bindings.Keys - stack|)
    decreases |s.bindings.Keys - stack|
  {
    hide EligibleStack, Successors, Sound;
    EligibleUnfolds(s, k, stack);
    StackGrows(s, k, stack);
    SuccessorsAreBound(s, k);
    forall d | d in Successors(s, k)
      ensures d in Stage(s, |s.bindings.Keys - stack| - 1)
    {
      EligibleIsStaged(s, d, stack + {k});
    }
  }

  /** A staged binding is eligible under any stack that holds nothing staged as early. */
  lemma {:induction false} StagedIsEligible(s: Snapshot, k: Key, n: nat, stack: set<Key>)
    requires k in Stage(s, n) && stack !! Stage(s, n)
    ensures k in s.bindings && EligibleStack(s, k, stack)
    decreases n
  {
    hide EligibleStack, Successors, Sound;
    StageGrows(s, n - 1);
    if k in Stage(s, n - 1) {
      StagedIsEligible(s, k, n - 1, stack);
    } else {
      forall d | d in Successors(s, k)
        ensures d in s.bindings && EligibleStack(s, d, stack + {k})
      {
        StagedIsEligible(s, d, n - 1, stack + {k});
      }
      EligibleUnfolds(s, k, stack);
    }
  }

  /** The walk with a stack computes the least fixpoint, reached in as many rounds as there are bindings. */
  lemma EligibleIsLeastFixpoint(s: Snapshot, k: Key)
    requires k in s.bindings
    ensures Eligible(s, k) <==> k in Stage(s, |s.bindings|)
    ensures Eligible(s, k) <==> exists n: nat :: k in Stage(s, n)
  {
    hide EligibleStack, Stage;
    assert s.bindings.Keys - {} == s.bindings.Keys;
    if Eligible(s, k) { EligibleIsStaged(s, k, {}); }
    if n: nat :| k in Stage(s, n) { StagedIsEligible(s, k, n, {}); }
  }

  // ---- by paths ----

  /** A walk along references. */
  predicate Walk(s: Snapshot, path: seq<Key>) {
    && path != []
    && (forall i :: 0 <= i < |path| ==> path[i] in s.bindings)
    && (forall i :: 0 <= i < |path| - 1 ==> path[i + 1] in Successors(s, path[i]))
  }

  predicate Repeats(path: seq<Key>) {
    exists i, j :: 0 <= i < j < |path| && path[i] == path[j]
  }

  lemma {:induction false} WalkDescends(s: Snapshot, path: seq<Key>, n: nat)
    requires Walk(s, path) && path[0] in Stage(s, n)
    ensures |path| <= n && path[|path| - 1] in Stage(s, n - (|path| - 1))
    decreases |path|
  {
    hide Successors, Sound;
    if |path| > 1 {
      assert path[0 + 1] in Successors(s, path[0]);
      var rest := path[1..];
      forall i | 0 <= i < |rest| - 1
        ensures rest[i + 1] in Successors(s, rest[i])
      {
        var j := i + 1;
        assert path[j + 1] in Successors(s, path[j]);
      }
      WalkDescends(s, rest, n - 1);
    }
  }

  /** Repeating a node would let a walk go on for ever; staged nodes have only short walks. */
  lemma StagedNeverRepeats(s: Snapshot, path: seq<Key>, n: nat)
    requires Walk(s, path) && path[0] in Stage(s, n)
    ensures !Repeats(path)
  {
    hide Successors, Sound, Stage;
    forall i, j | 0 <= i < j < |path|
      ensures path[i] != path[j]
    {
      if path[i] == path[j] {
        WalkDescends(s, path[..i + 1], n);
        var m := n - i;
        LoopsAreUnstaged(s, path[i..j + 1], m);
      }
    }
  }

  lemma {:induction false} LoopsAreUnstaged(s: Snapshot, loop: seq<Key>, n: nat)
    requires Walk(s, loop) && |loop| > 1 && loop[0] == loop[|loop| - 1]
    ensures loop[0] !in Stage(s, n)
    decreases n
  {
    hide Successors, Sound, Stage;
    if loop[0] in Stage(s, n) {
      WalkDescends(s, loop, n);
      LoopsAreUnstaged(s, loop, n - (|loop| - 1));
    }
  }

  lemma WalkExtends(s: Snapshot, path: seq<Key>, d: Key)
    requires Walk(s, path) && d in s.bindings && d in Successors(s, path[|path| - 1])
    ensures Walk(s, path + [d])
  {
    hide Successors;
    assert forall i :: 0 <= i < |path| ==> (path + [d])[i] == path[i];
  }

  /** An ineligible binding has a walk that ends badly: at an unsound node, or at one already passed. */
  lemma {:induction false} IneligibleHasBadWalk(s: Snapshot, trail: seq<Key>, k: Key) returns (path: seq<Key>)
    requires k in s.bindings && Walk(s, trail + [k])
    requires !EligibleStack(s, k, set x | x in trail)
    ensures Walk(s, path) && path[0] == (trail + [k])[0]
    ensures !Sound(s, path[|path| - 1]) || Repeats(path)
    decreases |s.bindings.Keys - set x | x in trail|
  {
    hide EligibleStack, Successors, Sound;
    var stack := set x | x in trail;
    path := trail + [k];
    EligibleUnfolds(s, k, stack);
    if k in stack {
      var i :| 0 <= i < |trail| && trail[i] == k;
      assert path[i] == path[|trail|];
    } else if Sound(s, k) {
      StackGrows(s, k, stack);
      SuccessorsAreBound(s, k);
      var d :| d in Successors(s, k) && !EligibleStack(s, d, stack + {k});
      assert (set x | x in path) == stack + {k};
      WalkExtends(s, path, d);
      path := IneligibleHasBadWalk(s, path, d);
    }
  }

  /** Eligible means: every walk from the binding meets sound nodes only, and none twice. */
  lemma EligibleIffAllWalksSound(s: Snapshot, k: Key)
    requires k in s.bindings
    ensures Eligible(s, k) <==>
            forall path :: Walk(s, path) && path[0] == k ==> Sound(s, path[|path| - 1]) && !Repeats(path)
  {
    hide EligibleStack, Successors, Sound, Stage;
    if Eligible(s, k) {
      EligibleIsLeastFixpoint(s, k);
      var n := |s.bindings|;
      forall path | Walk(s, path) && path[0] == k
        ensures Sound(s, path[|path| - 1]) && !Repeats(path)
      {
        WalkDescends(s, path, n);
        StagedNeverRepeats(s, path, n);
        StagedIsSound(s, path[|path| - 1], n - (|path| - 1));
      }
    } else {
      assert Walk(s, [] + [k]) by { WalkOfOne(s, k); }
      assert (set x: Key | x in []) == {};
      var path := IneligibleHasBadWalk(s, [], k);
    }
  }

  lemma WalkOfOne(s: Snapshot, k: Key)
    requires k in s.bindings
    ensures Walk(s, [] + [k])
  {
  }

  lemma StagedIsSound(s: Snapshot, k: Key, n: nat)
    requires k in Stage(s, n)
    ensures Sound(s, k)
  {
  }

  // ---- evidence ----

  /** The first kind, in a fixed order, under which an address is bound decides for it. */
  predicate EligibleEvidence(s: Snapshot, id: string) {
    if Key(RecordTarget, id) in s.bindings then UsableEvidence(s, Key(RecordTarget, id))
    else if Key(EventTarget, id) in s.bindings then UsableEvidence(s, Key(EventTarget, id))
    else Key(PageTarget, id) in s.bindings && UsableEvidence(s, Key(PageTarget, id))
  }

  predicate UsableEvidence(s: Snapshot, k: Key)
    requires k in s.bindings
  {
    Eligible(s, k) && s.bindings[k].mark.reason != SecurityRevoked && s.bindings[k].mark.reason != PolicyChanged
  }

  /** What capsules and page faults ask of an address. */
  predicate RecordEligible(s: Snapshot, id: string) {
    if Key(RecordTarget, id) in s.bindings then Eligible(s, Key(RecordTarget, id))
    else Key(PageTarget, id) in s.bindings && Eligible(s, Key(PageTarget, id))
  }
}
