/** Addresses and their answers. */
module BindingLaws {
  import opened Paths
  import opened Snapshots
  import opened Eligibility
  import opened Transitions
  import opened Descriptors
  import opened EventLaws

  // What becomes addressable with an event, and what an address is answered with, told from the records
  // and the snapshots alone.

  // ---- the binding of an event ----

  /** Epochs captured at the binding's own place, one for each of its paths. */
  predicate CapturedNow(b: Binding, c: Clocks) {
    && b.epochs.repo == EpochOf(c.repos, b.at.repo)
    && b.epochs.branch == EpochOf(c.branches, BranchKey(b.at.repo, b.at.branch))
    && b.epochs.commit == EpochOf(c.commits, CommitKey(b.at.repo, b.at.branch, b.at.commit))
    && b.epochs.paths.Keys == (set p | p in b.paths)
    && forall p :: p in b.paths ==> b.epochs.paths[p] == EpochOf(c.paths, PathKey(b.at.repo, b.at.branch, p))
  }

  /** An event that is taken binds its own address and nothing else: active, evidenced by itself, over
      the file it snapshots or hints at, with the epochs of now. */
  lemma EventAddressLaw(s: Snapshot, ev: Event)
    ensures Transition(s, ev).Ok? <==> ev.id != "" && Applied(s, ev).Ok?
    ensures Transition(s, ev).Ok? ==>
              var m, t, k := Applied(s, ev).value, Transition(s, ev).value, Key(EventTarget, ev.id);
              && k in t.bindings && t == m.(bindings := m.bindings[k := t.bindings[k]])
              && var b := t.bindings[k];
                 && b.mark == Mark(Active, 0, NoReason) && b.evidence == ev.id && b.refs == [] && CapturedNow(b, t.clocks)
                 && b.paths == (if ev.change.FileSnapshot? then [ev.change.path] else if ev.hintedFile != "" then [ev.hintedFile] else [])
                 && b.digest == (if ev.change.FileSnapshot? then ev.change.digest else "")
  {
    hide Applied, EpochOf;
  }

  // ---- the bindings of records ----

  predicate UsableScope(scope: ScopeName) {
    scope == GlobalScope || scope == RepoScope || scope == BranchScope || scope == TaskScope || scope == FileScope
  }

  /** The first kind a reference is bound under, records before events before pages. */
  predicate Grounds(s: Snapshot, ref: string, k: Key) {
    && k in s.bindings && k.id == ref
    && (k.kind == RecordTarget
        || (k.kind == EventTarget && Key(RecordTarget, ref) !in s.bindings)
        || (k.kind == PageTarget && Key(RecordTarget, ref) !in s.bindings && Key(EventTarget, ref) !in s.bindings))
  }

  /** A record cannot be bound exactly when its references do not parse or its scope is unknown. */
  predicate Bindable(s: Snapshot, ev: Event, r: Derived) {
    match r
    case ScopedRecord(_, scope) => scope == NoScope || UsableScope(scope)
    case DecisionRecord(_, scope, refs) => refs.Some? && (scope == NoScope || UsableScope(scope))
    case PageRecord(_, scope, _, refs) => refs.Some? && (scope == NoScope || UsableScope(scope))
    case AvoidRecord(_, ref) =>
      && (ev.payloadScope == NoScope || UsableScope(ev.payloadScope))
      && forall kind :: kind in {RecordTarget, EventTarget, PageTarget} && Grounds(s, ref, Key(kind, ref)) ==>
           s.bindings[Key(kind, ref)].scope == NoScope || UsableScope(s.bindings[Key(kind, ref)].scope)
    case _ => true
  }

  predicate Groundless(s: Snapshot, ref: string) {
    Key(RecordTarget, ref) !in s.bindings && Key(EventTarget, ref) !in s.bindings && Key(PageTarget, ref) !in s.bindings
  }

  function Declared(scope: ScopeName): ScopeName {
    if scope == NoScope then TaskScope else scope
  }

  /** The binding a record gets on its own account: active, with the record's references, file and
      scope. */
  predicate OwnBinding(r: Derived, b: Binding) {
    && b.mark == Mark(Active, 0, NoReason) && b.digest == ""
    && match r
       case ScopedRecord(_, scope) => b.scope == Declared(scope) && b.refs == [] && b.paths == []
       case FailureRecord(_, file) => b.scope == BranchScope && b.refs == [] && b.paths == (if file != "" then [file] else [])
       case DecisionRecord(_, scope, refs) => refs.Some? && b.scope == Declared(scope) && b.refs == refs.value && b.paths == []
       case PageRecord(_, scope, _, refs) => refs.Some? && b.scope == Declared(scope) && b.refs == refs.value && b.paths == []
       case AvoidRecord(_, ref) => b.scope == TaskScope && b.refs == [ref] && b.paths == []
       case _ => b.scope == TaskScope && b.refs == [] && b.paths == []
  }

  /** An avoidance takes over what it refers to, its mark, digest and paths included; only what ends up
      bound to nothing at all has no paths. */
  predicate Inherited(ref: string, g: Binding, b: Binding) {
    && b.mark == g.mark && b.digest == g.digest && b.refs == [ref] && b.scope == Declared(g.scope)
    && b.paths == (if Unbound(b) then [] else g.paths)
  }

  lemma RecordAddressLaw(s: Snapshot, ev: Event, r: Derived)
    ensures DerivedBinding(s, ev, r).Ok? <==> Bindable(s, ev, r)
    ensures DerivedBinding(s, ev, r).Ok? ==> (DerivedBinding(s, ev, r).value.None? <==> r.UnboundRecord?)
    ensures DerivedBinding(s, ev, r).Ok? && !r.UnboundRecord? ==>
              var (k, b) := DerivedBinding(s, ev, r).value.value;
              && k == Key(if r.PageRecord? then PageTarget else RecordTarget, r.id)
              && b.evidence == ev.id && CapturedNow(b, s.clocks)
              && (if r.AvoidRecord? && !Groundless(s, r.ref) then
                    forall g :: Grounds(s, r.ref, g) ==> Inherited(r.ref, s.bindings[g], b)
                  else OwnBinding(r, b))
  {
    hide Finished, UsableScope, CapturedNow, Unbound;
    match r
    case TaskRecord(id, branch, commit) =>
      var b := Fresh(s, ev, TaskScope);
      FinishedLaw(s, Key(RecordTarget, id), b.(at := b.at.(branch := branch, commit := commit)), None);
    case ScopedRecord(id, scope) => FinishedLaw(s, Key(RecordTarget, id), Fresh(s, ev, scope), None);
    case FailureRecord(id, file) =>
      FinishedLaw(s, Key(RecordTarget, id),
                  Fresh(s, ev, BranchScope).(needs := NoNeeds.(commit := true), paths := if file != "" then [file] else []), None);
    case DecisionRecord(id, scope, refs) =>
      if refs.Some? { FinishedLaw(s, Key(RecordTarget, id), Fresh(s, ev, scope).(refs := refs.value), None); }
    case PageRecord(id, scope, branch, refs) =>
      var b := Fresh(s, ev, scope);
      if refs.Some? {
        FinishedLaw(s, Key(PageTarget, id), b.(refs := refs.value, at := b.at.(branch := FirstNonEmpty(branch, b.at.branch))), None);
      }
    case AvoidRecord(_, _) => AvoidAddressLaw(s, ev, r);
    case PlainRecord(id) => FinishedLaw(s, Key(RecordTarget, id), Fresh(s, ev, TaskScope), None);
    case UnboundRecord =>
  }

  lemma AvoidAddressLaw(s: Snapshot, ev: Event, r: Derived)
    requires r.AvoidRecord?
    ensures DerivedBinding(s, ev, r).Ok? <==> Bindable(s, ev, r)
    ensures DerivedBinding(s, ev, r).Ok? ==> (DerivedBinding(s, ev, r).value.None? <==> r.UnboundRecord?)
    ensures DerivedBinding(s, ev, r).Ok? && !r.UnboundRecord? ==>
              var (k, b) := DerivedBinding(s, ev, r).value.value;
              && k == Key(if r.PageRecord? then PageTarget else RecordTarget, r.id)
              && b.evidence == ev.id && CapturedNow(b, s.clocks)
              && (if r.AvoidRecord? && !Groundless(s, r.ref) then
                    forall g :: Grounds(s, r.ref, g) ==> Inherited(r.ref, s.bindings[g], b)
                  else OwnBinding(r, b))
  {
    hide Finished, UsableScope, CapturedNow, Unbound, SupportedScope;
    var extra := if ev.payloadScope == NoScope then TaskScope else ev.payloadScope;
    FinishedLaw(s, Key(RecordTarget, r.id), AvoidBinding(s, ev, r.ref), Some(extra));
    SupportedIsUsable();
  }

  lemma SupportedIsUsable()
    ensures forall scope :: SupportedScope(scope) <==> UsableScope(scope)
    ensures UsableScope(TaskScope) && UsableScope(BranchScope) && !UsableScope(NoScope)
  {
  }

  lemma FinishedLaw(s: Snapshot, k: Key, b: Binding, extra: Option<ScopeName>)
    ensures Finished(s, k, b, extra).Ok? <==> b.scope == NoScope || UsableScope(b.scope)
    ensures UsableScope(TaskScope) && UsableScope(BranchScope)
    ensures Finished(s, k, b, extra).Ok? ==>
              Finished(s, k, b, extra).value.Some? &&
              var (j, g) := Finished(s, k, b, extra).value.value;
              && j == k && g.mark == b.mark && g.evidence == b.evidence && g.refs == b.refs && g.digest == b.digest
              && g.scope == Declared(b.scope) && CapturedNow(g, s.clocks)
              && g.paths == (if Unbound(g) then [] else b.paths) && (b.scope != GlobalScope ==> !Unbound(g))
  {
    hide EpochOf;
  }

  // ---- a batch of records ----

  /** The scene in which a record of the batch is bound: the place and the clocks of now. */
  predicate SameScene(s: Snapshot, m: Snapshot) {
    m.current == s.current && m.clocks == s.clocks && m.known == s.known && m.revision == s.revision
  }

  predicate NamesKey(r: Derived, k: Key) {
    !r.UnboundRecord? && k == Key(if r.PageRecord? then PageTarget else RecordTarget, r.id)
  }

  ghost predicate NamedIn(records: seq<Derived>, k: Key) {
    exists r :: r in records && NamesKey(r, k)
  }

  predicate LastFor(records: seq<Derived>, i: nat, k: Key)
    requires i < |records|
  {
    NamesKey(records[i], k) && forall j :: i < j < |records| ==> !NamesKey(records[j], k)
  }

  /** The binding is what the record gets somewhere in this scene. */
  ghost predicate BoundFrom(s: Snapshot, ev: Event, r: Derived, k: Key, b: Binding) {
    exists m :: SameScene(s, m) && DerivedBinding(m, ev, r) == Ok(Some((k, b)))
  }

  /** Every address a record names holds what the last record of it gets; no other address changed. */
  ghost predicate BatchBound(s: Snapshot, ev: Event, records: seq<Derived>, t: Snapshot) {
    && t == s.(bindings := t.bindings)
    && (forall k :: !NamedIn(records, k) ==> (k in t.bindings <==> k in s.bindings) && (k in s.bindings ==> t.bindings[k] == s.bindings[k]))
    && (forall i: nat, k :: i < |records| && LastFor(records, i, k) ==> k in t.bindings && BoundFrom(s, ev, records[i], k, t.bindings[k]))
  }

  lemma {:induction false} BatchLaw(s: Snapshot, ev: Event, records: seq<Derived>)
    requires BindAll(s, ev, records).Ok?
    ensures BatchBound(s, ev, records, BindAll(s, ev, records).value)
    decreases |records|
  {
    hide DerivedBinding, NamesKey, BatchBound;
    if records == [] {
      EmptyBatch(s, ev);
    } else {
      var head, rest := records[0], records[1..];
      HeadKey(s, ev, head);
      match DerivedBinding(s, ev, head)
      case Ok(None) =>
        BatchLaw(s, ev, rest);
        BatchPasses(s, ev, records, BindAll(s, ev, rest).value);
      case Ok(Some((k, b))) =>
        var m := s.(bindings := s.bindings[k := b]);
        BatchLaw(m, ev, rest);
        BatchBinds(s, m, ev, records, k, b, BindAll(m, ev, rest).value);
    }
  }

  /** A batch is taken exactly when no record on the way to its end is refused in the scene. */
  lemma {:induction false} BatchRefusalLaw(s: Snapshot, ev: Event, records: seq<Derived>)
    ensures BindAll(s, ev, records).Err? ==> exists i: nat, m :: i < |records| && SameScene(s, m) && !Bindable(m, ev, records[i])
    ensures BindAll(s, ev, records).Ok? ==> forall i: nat :: i < |records| ==> exists m :: SameScene(s, m) && Bindable(m, ev, records[i])
    decreases |records|
  {
    hide DerivedBinding, Bindable;
    if records != [] {
      var head, rest := records[0], records[1..];
      RecordAddressLaw(s, ev, head);
      assert SameScene(s, s);
      match DerivedBinding(s, ev, head)
      case Err(_) => assert !Bindable(s, ev, records[0]);
      case Ok(d) =>
        var m := if d.None? then s else s.(bindings := s.bindings[d.value.0 := d.value.1]);
        BatchRefusalLaw(m, ev, rest);
        RefusalMoves(s, m, ev, records);
    }
  }

  lemma RefusalMoves(s: Snapshot, m: Snapshot, ev: Event, records: seq<Derived>)
    requires records != [] && SameScene(s, m) && Bindable(s, ev, records[0])
    requires BindAll(m, ev, records[1..]).Err? ==> exists i: nat, n :: i < |records| - 1 && SameScene(m, n) && !Bindable(n, ev, records[1..][i])
    requires BindAll(m, ev, records[1..]).Ok? ==> forall i: nat :: i < |records| - 1 ==> exists n :: SameScene(m, n) && Bindable(n, ev, records[1..][i])
    ensures BindAll(m, ev, records[1..]).Err? ==> exists i: nat, n :: i < |records| && SameScene(s, n) && !Bindable(n, ev, records[i])
    ensures BindAll(m, ev, records[1..]).Ok? ==> forall i: nat :: i < |records| ==> exists n :: SameScene(s, n) && Bindable(n, ev, records[i])
  {
    hide Bindable, BindAll;
    if BindAll(m, ev, records[1..]).Err? {
      var i: nat, n :| i < |records| - 1 && SameScene(m, n) && !Bindable(n, ev, records[1..][i]);
      var k: nat := i + 1;
      assert records[k] == records[1..][i] && SameScene(s, n);
    } else {
      forall i: nat | i < |records| ensures exists n :: SameScene(s, n) && Bindable(n, ev, records[i]) {
        if i > 0 {
          var j: nat := i - 1;
          var n :| SameScene(m, n) && Bindable(n, ev, records[1..][j]);
          assert records[1..][j] == records[i] && SameScene(s, n);
        } else {
          assert SameScene(s, s);
        }
      }
    }
  }

  lemma EmptyBatch(s: Snapshot, ev: Event)
    ensures BatchBound(s, ev, [], s)
  {
  }

  lemma HeadKey(s: Snapshot, ev: Event, r: Derived)
    requires DerivedBinding(s, ev, r).Ok?
    ensures DerivedBinding(s, ev, r).value.None? ==> forall k :: !NamesKey(r, k)
    ensures DerivedBinding(s, ev, r).value.Some? ==> forall k :: NamesKey(r, k) <==> k == DerivedBinding(s, ev, r).value.value.0
  {
    hide DerivedBinding;
    RecordAddressLaw(s, ev, r);
  }

  lemma TailNames(records: seq<Derived>)
    requires records != []
    ensures forall k :: NamedIn(records, k) <==> NamesKey(records[0], k) || NamedIn(records[1..], k)
  {
    hide NamesKey;
    assert records == [records[0]] + records[1..];
    forall k ensures NamedIn(records, k) <==> NamesKey(records[0], k) || NamedIn(records[1..], k) {
      if NamesKey(records[0], k) { assert records[0] in records; }
      if r :| r in records[1..] && NamesKey(r, k) { assert r in records; }
    }
  }

  lemma TailLast(records: seq<Derived>, i: nat, k: Key)
    requires i < |records| && LastFor(records, i, k)
    ensures i > 0 ==> records[1..][i - 1] == records[i] && LastFor(records[1..], i - 1, k)
    ensures i == 0 ==> NamesKey(records[0], k) && !NamedIn(records[1..], k)
  {
    hide NamesKey;
    var rest := records[1..];
    if i > 0 {
      forall j | i - 1 < j < |rest| ensures !NamesKey(rest[j], k) { assert rest[j] == records[j + 1]; }
    } else {
      forall r | r in rest ensures !NamesKey(r, k) {
        var j :| 0 <= j < |rest| && rest[j] == r;
        assert records[j + 1] == r;
      }
    }
  }

  lemma SceneHolds(s: Snapshot, m: Snapshot, ev: Event, r: Derived, k: Key, b: Binding)
    requires SameScene(s, m) && BoundFrom(m, ev, r, k, b)
    ensures BoundFrom(s, ev, r, k, b)
  {
    hide DerivedBinding;
    var n :| SameScene(m, n) && DerivedBinding(n, ev, r) == Ok(Some((k, b)));
    assert SameScene(s, n);
  }

  lemma BatchPasses(s: Snapshot, ev: Event, records: seq<Derived>, t: Snapshot)
    requires records != [] && (forall k :: !NamesKey(records[0], k)) && BatchBound(s, ev, records[1..], t)
    ensures BatchBound(s, ev, records, t)
  {
    hide NamesKey, LastFor, BoundFrom, NamedIn;
    TailNames(records);
    forall i: nat, k | i < |records| && LastFor(records, i, k)
      ensures k in t.bindings && BoundFrom(s, ev, records[i], k, t.bindings[k])
    {
      TailLast(records, i, k);
    }
  }

  lemma BatchBinds(s: Snapshot, m: Snapshot, ev: Event, records: seq<Derived>, k0: Key, b0: Binding, t: Snapshot)
    requires records != [] && DerivedBinding(s, ev, records[0]) == Ok(Some((k0, b0))) && m == s.(bindings := s.bindings[k0 := b0])
    requires (forall k :: NamesKey(records[0], k) <==> k == k0) && BatchBound(m, ev, records[1..], t)
    ensures BatchBound(s, ev, records, t)
  {
    hide NamesKey, LastFor, BoundFrom, NamedIn, DerivedBinding;
    TailNames(records);
    forall i: nat, k | i < |records| && LastFor(records, i, k)
      ensures k in t.bindings && BoundFrom(s, ev, records[i], k, t.bindings[k])
    {
      TailLast(records, i, k);
      if i > 0 {
        SceneHolds(s, m, ev, records[i], k, t.bindings[k]);
      } else {
        HeadIsBound(s, ev, records[0], k0, b0);
      }
    }
  }

  lemma HeadIsBound(s: Snapshot, ev: Event, r: Derived, k: Key, b: Binding)
    requires DerivedBinding(s, ev, r) == Ok(Some((k, b)))
    ensures BoundFrom(s, ev, r, k, b)
  {
    hide DerivedBinding;
    assert SameScene(s, s);
  }

  /** A task started without an identity takes the first one its records bring, in the scope and on its
      own event; nothing else is renamed. */
  lemma TaskNameLaw(s: Snapshot, ev: Event, records: seq<Derived>)
    ensures var t, k := TaskNamed(s, ev, records), Key(EventTarget, ev.id);
            if ev.change.TaskStarted? && s.current.task == "" && exists i :: 0 <= i < |records| && records[i].TaskRecord? then
              exists i :: 0 <= i < |records| && records[i].TaskRecord? && (forall j :: 0 <= j < i ==> !records[j].TaskRecord?)
                && t.current == s.current.(task := records[i].id)
                && t == s.(current := t.current, bindings := t.bindings) && t.bindings.Keys == s.bindings.Keys
                && (forall j :: j in s.bindings && j != k ==> t.bindings[j] == s.bindings[j])
                && (k in s.bindings ==> t.bindings[k] == s.bindings[k].(at := s.bindings[k].at.(task := records[i].id)))
            else t == s
  {
    var i := FirstTaskAt(records);
  }

  lemma {:induction false} FirstTaskAt(records: seq<Derived>) returns (i: nat)
    ensures FirstTask(records).None? <==> forall j :: 0 <= j < |records| ==> !records[j].TaskRecord?
    ensures FirstTask(records).Some? ==>
              i < |records| && records[i].TaskRecord? && records[i].id == FirstTask(records).value
              && forall j :: 0 <= j < i ==> !records[j].TaskRecord?
  {
    i := 0;
    if records != [] && !records[0].TaskRecord? {
      var n := FirstTaskAt(records[1..]);
      i := n + 1;
      assert forall j :: 0 < j < |records| ==> records[j] == records[1..][j - 1];
    }
  }

  /** What is committed for one input: its transition, the name, then its records; one revision up. */
  lemma CommitLaw(s: Snapshot, input: Input)
    ensures Committed(s, input).Ok? <==>
              Transition(s, input.event).Ok? && BindAll(TaskNamed(Transition(s, input.event).value, input.event, input.records), input.event, input.records).Ok?
    ensures Committed(s, input).Ok? ==>
              var named := TaskNamed(Transition(s, input.event).value, input.event, input.records);
              Committed(s, input).value == BindAll(named, input.event, input.records).value.(revision := s.revision + 1)
  {
    hide Transition, BindAll, TaskNamed;
  }

  // ---- what a descriptor that is not served is answered with ----

  /** The answer an ineligible binding gives: invalidated at its revision, or stale at one that is never
      zero. */
  predicate AnswersFor(b: Binding, v: Verdict) {
    if b.mark.status == Invalidated then v.status == Invalidated && v.revision == b.mark.revision
    else v.status == Stale && v.revision == (if b.mark.revision == 0 then 1 else b.mark.revision)
  }

  /** Every binding the reference is found under is eligible, and there is one. */
  predicate RefIsUsable(s: Snapshot, ref: string) {
    && !Groundless(s, ref)
    && forall kind :: kind in {RecordTarget, EventTarget, PageTarget} && Key(kind, ref) in s.bindings ==> Eligible(s, Key(kind, ref))
  }

  /** The first kind under which the reference is ineligible decides; a reference to nothing is stale. */
  predicate RefAnswers(s: Snapshot, ref: string, v: Verdict) {
    var r, e, p := Key(RecordTarget, ref), Key(EventTarget, ref), Key(PageTarget, ref);
    && (Groundless(s, ref) ==> v == Verdict(Stale, 1))
    && (r in s.bindings && !Eligible(s, r) ==> AnswersFor(s.bindings[r], v))
    && ((r in s.bindings ==> Eligible(s, r)) && e in s.bindings && !Eligible(s, e) ==> AnswersFor(s.bindings[e], v))
    && ((r in s.bindings ==> Eligible(s, r)) && (e in s.bindings ==> Eligible(s, e)) && p in s.bindings && !Eligible(s, p) ==>
          AnswersFor(s.bindings[p], v))
  }

  /** The page's own binding answers first, then the first reference that cannot be used, and last, with
      nothing against the page but itself, a mismatch with its binding or the scope. */
  lemma VerdictLaw(s: Snapshot, d: Descriptor)
    ensures var v := PageStatus(s, d); var r, p := Key(RecordTarget, d.id), Key(PageTarget, d.id);
            var own := if r in s.bindings then {r} else if p in s.bindings then {p} else {};
            && (v.status == Active ==> v.revision == 0)
            && (forall k :: k in own && !Eligible(s, k) ==> AnswersFor(s.bindings[k], v))
            && ((forall k :: k in own ==> Eligible(s, k)) ==>
                  && (forall i :: 0 <= i < |d.refs| && !RefIsUsable(s, d.refs[i]) && (forall j :: 0 <= j < i ==> RefIsUsable(s, d.refs[j])) ==>
                        RefAnswers(s, d.refs[i], v))
                  && (v.status != Active && (forall ref :: ref in d.refs ==> RefIsUsable(s, ref)) ==>
                        && v.status == Stale && (own == {} ==> v.revision == 1)
                        && (forall k :: k in own ==> v.revision == if s.bindings[k].mark.revision == 0 then 1 else s.bindings[k].mark.revision)))
  {
    hide Eligible, MatchesBinding, MatchesScope, RefIsUsable, RefAnswers, AnswersFor, RefsFault;
    RefsVerdict(s, d.refs);
    RefsFaultExactly(s, d.refs);
    IneligibleAnswers();
  }

  lemma IneligibleAnswers()
    ensures forall b :: AnswersFor(b, Ineligible(b)) && Ineligible(b).status != Active
  {
  }

  lemma RefVerdict(s: Snapshot, ref: string)
    ensures RefFault(s, ref).None? <==> RefIsUsable(s, ref)
    ensures RefFault(s, ref).Some? ==> RefAnswers(s, ref, RefFault(s, ref).value)
  {
    hide Eligible;
  }

  lemma {:induction false} RefsVerdict(s: Snapshot, refs: seq<string>)
    ensures RefsFault(s, refs).None? <==> forall ref :: ref in refs ==> RefIsUsable(s, ref)
    ensures forall i :: 0 <= i < |refs| && !RefIsUsable(s, refs[i]) && (forall j :: 0 <= j < i ==> RefIsUsable(s, refs[j])) ==>
              RefsFault(s, refs).Some? && RefAnswers(s, refs[i], RefsFault(s, refs).value)
  {
    hide RefFault, RefIsUsable, RefAnswers;
    if refs != [] {
      RefVerdict(s, refs[0]);
      RefsVerdict(s, refs[1..]);
      assert refs == [refs[0]] + refs[1..];
      forall i | 0 <= i < |refs| && !RefIsUsable(s, refs[i]) && (forall j :: 0 <= j < i ==> RefIsUsable(s, refs[j]))
        ensures RefsFault(s, refs).Some? && RefAnswers(s, refs[i], RefsFault(s, refs).value)
      {
        if i > 0 {
          assert refs[1..][i - 1] == refs[i];
          forall j | 0 <= j < i - 1 ensures RefIsUsable(s, refs[1..][j]) { assert refs[1..][j] == refs[j + 1]; }
        }
      }
    }
  }

  // ---- what makes an address eligible ----

  /** The binding itself is in order: active, a page with references, of the current repository, task,
      branch and commit as far as it is gated, and over paths that are not known to be stale, lie under
      nothing dead, and are at the epochs it was captured at. */
  ghost predicate Standing(s: Snapshot, k: Key)
    requires k in s.bindings
  {
    var b := s.bindings[k];
    && b.mark.status == Active
    && (k.kind == PageTarget ==> |b.refs| > 0)
    && (b.needs.repo ==> b.at.repo == s.current.repo) && (b.needs.task ==> b.at.task == s.current.task) && !LeftBehind(s, b)
    && forall p :: p in b.paths ==>
         var q := PathKey(b.at.repo, b.at.branch, p);
         && (q in s.known ==> s.known[q].mark.status == Active) && !UnderDead(s, b.at.repo, b.at.branch, p)
         && EpochOf(b.epochs.paths, p) == EpochOf(s.clocks.paths, q)
  }

  /** An eligible address is in order, and so is everything it refers to, under every kind it is bound;
      an address that refers to nothing needs no more than to be in order. */
  lemma EligibleLaw(s: Snapshot, k: Key)
    requires k in s.bindings
    ensures Eligible(s, k) ==> Standing(s, k)
    ensures Eligible(s, k) ==> forall ref :: ref in s.bindings[k].refs ==> RefIsUsable(s, ref)
    ensures s.bindings[k].refs == [] ==> (Eligible(s, k) <==> Standing(s, k))
  {
    hide LocallyEligible, Standing, RefIsUsable, Eligible;
    StandingIsLocal(s, k);
    EligibleParts(s, k);
    if Eligible(s, k) {
      forall ref | ref in s.bindings[k].refs ensures RefIsUsable(s, ref) { EligibleRefs(s, k, ref); }
    }
  }

  lemma StandingIsLocal(s: Snapshot, k: Key)
    requires k in s.bindings
    ensures Standing(s, k) <==> LocallyEligible(s, k)
  {
    hide TerminalOverlap, UnderDead, EpochOf;
    forall p | p in s.bindings[k].paths
      ensures TerminalOverlap(s.known, s.bindings[k].at.repo, s.bindings[k].at.branch, p) == UnderDead(s, s.bindings[k].at.repo, s.bindings[k].at.branch, p)
    {
      TerminalIsUnderDead(s, s.bindings[k].at.repo, s.bindings[k].at.branch, p);
    }
  }

  lemma EligibleParts(s: Snapshot, k: Key)
    requires k in s.bindings
    ensures Eligible(s, k) ==> LocallyEligible(s, k)
    ensures s.bindings[k].refs == [] && LocallyEligible(s, k) ==> Eligible(s, k)
  {
    hide LocallyEligible;
    assert RefsEligible(s, [], {} + {k});
  }

  lemma EligibleRefs(s: Snapshot, k: Key, ref: string)
    requires k in s.bindings && Eligible(s, k) && ref in s.bindings[k].refs
    ensures RefIsUsable(s, ref)
  {
    hide LocallyEligible, EligibleStack, Stage, Eligible, RefsEligible;
    EligibleIsLeastFixpoint(s, k);
    var n: nat :| k in Stage(s, n);
    StageHolds(s, k, n, ref);
    forall kind | kind in {RecordTarget, EventTarget, PageTarget} && Key(kind, ref) in s.bindings
      ensures Eligible(s, Key(kind, ref))
    {
      StagedIsUsable(s, Key(kind, ref), n - 1);
    }
  }

  lemma StagedIsUsable(s: Snapshot, k: Key, n: nat)
    requires k in s.bindings && k in Stage(s, n)
    ensures Eligible(s, k)
  {
    hide Stage, Eligible;
    EligibleIsLeastFixpoint(s, k);
  }

  lemma StageHolds(s: Snapshot, k: Key, n: nat, ref: string)
    requires k in Stage(s, n) && k in s.bindings && ref in s.bindings[k].refs
    ensures !Groundless(s, ref)
    ensures n > 0 && forall kind :: kind in {RecordTarget, EventTarget, PageTarget} && Key(kind, ref) in s.bindings ==> Key(kind, ref) in Stage(s, n - 1)
  {
    hide LocallyEligible;
    var i :| 0 <= i < |s.bindings[k].refs| && s.bindings[k].refs[i] == ref;
    assert Dependencies(s, s.bindings[k].refs[i]) != {};
    forall kind | kind in {RecordTarget, EventTarget, PageTarget} && Key(kind, ref) in s.bindings
      ensures Key(kind, ref) in Stage(s, n - 1)
    {
      assert Key(kind, ref) in Dependencies(s, s.bindings[k].refs[i]);
      assert Key(kind, ref) in Successors(s, k);
    }
  }

  /** Evidence and capsules ask the first kind an address is bound under; evidence must not have been
      revoked for security or policy either. */
  lemma EvidenceLaw(s: Snapshot, id: string)
    ensures EligibleEvidence(s, id) <==>
              exists k :: Grounds(s, id, k) && k.kind != PathTarget && Eligible(s, k)
                && s.bindings[k].mark.reason != SecurityRevoked && s.bindings[k].mark.reason != PolicyChanged
    ensures RecordEligible(s, id) <==>
              if Key(RecordTarget, id) in s.bindings then Eligible(s, Key(RecordTarget, id))
              else Key(PageTarget, id) in s.bindings && Eligible(s, Key(PageTarget, id))
  {
    hide Eligible;
    var r, e, p := Key(RecordTarget, id), Key(EventTarget, id), Key(PageTarget, id);
    assert r in s.bindings ==> Grounds(s, id, r);
    assert e in s.bindings && r !in s.bindings ==> Grounds(s, id, e);
    assert p in s.bindings && r !in s.bindings && e !in s.bindings ==> Grounds(s, id, p);
    assert forall k :: Grounds(s, id, k) ==> k == Key(k.kind, id);
  }

  // ---- what makes a descriptor served ----

  /** The newest of some epochs, or zero if there are none. */
  predicate IsNewest(epoch: nat, among: set<nat>) {
    (epoch == 0 || epoch in among) && forall e :: e in among ==> e <= epoch
  }

  function GatingEpochs(b: Binding): set<nat> {
    (if b.needs.branch then {b.epochs.branch} else {}) + (if b.needs.commit then {b.epochs.commit} else {})
    + set p | p in b.paths :: EpochOf(b.epochs.paths, p)
  }

  function PresentEpochs(s: Snapshot, d: Descriptor): set<nat> {
    (if d.scope == BranchScope || d.scope == FileScope then {EpochOf(s.clocks.branches, BranchKey(s.current.repo, d.branch))} else {})
    + (if d.commit != "" then {EpochOf(s.clocks.commits, CommitKey(s.current.repo, d.branch, d.commit))} else {})
    + set p | p in d.paths :: EpochOf(s.clocks.paths, PathKey(s.current.repo, d.branch, p))
  }

  /** A descriptor is served exactly when everything it refers to is usable and it agrees, in scope,
      paths, digest, place and newest epoch, with its own eligible binding; or, having none, when it
      refers to something, its place and paths are current, and its epoch is the newest of now. */
  lemma ServedLaw(s: Snapshot, d: Descriptor)
    ensures PageStatus(s, d).status == Active <==>
              && (forall ref :: ref in d.refs ==> RefIsUsable(s, ref))
              && var r, p := Key(RecordTarget, d.id), Key(PageTarget, d.id);
                 if r in s.bindings || p in s.bindings then
                   var k := if r in s.bindings then r else p; var b := s.bindings[k];
                   && Eligible(s, k) && d.scope == b.scope && d.paths == b.paths && d.digest == b.digest
                   && (b.needs.branch ==> d.branch == b.at.branch) && (b.needs.commit ==> d.commit == b.at.commit)
                   && IsNewest(d.epoch, GatingEpochs(b))
                 else
                   && |d.refs| > 0 && d.scope != NoScope
                   && (d.scope == BranchScope || d.scope == FileScope ==> d.branch == s.current.branch)
                   && (d.commit != "" ==> d.commit == s.current.commit)
                   && (forall q :: q in d.paths ==>
                         var k := PathKey(s.current.repo, s.current.branch, q);
                         (k in s.known ==> s.known[k].mark.status == Active) && !UnderDead(s, s.current.repo, s.current.branch, q))
                   && IsNewest(d.epoch, PresentEpochs(s, d))
  {
    hide Eligible, RefIsUsable, Generation, CurrentGeneration, IsNewest, GatingEpochs, PresentEpochs, TerminalOverlap, UnderDead, RefsFault;
    RefsVerdict(s, d.refs);
    RefsFaultExactly(s, d.refs);
    IneligibleAnswers();
    forall q | q in d.paths
      ensures TerminalOverlap(s.known, s.current.repo, s.current.branch, q) == UnderDead(s, s.current.repo, s.current.branch, q)
    {
      TerminalIsUnderDead(s, s.current.repo, s.current.branch, q);
    }
    PresentIsNewest(s, d);
    forall b: Binding ensures IsNewest(d.epoch, GatingEpochs(b)) <==> d.epoch == Generation(b) { GenerationIsNewest(b, d.epoch); }
  }

  lemma NewestIsOne(a: nat, b: nat, among: set<nat>)
    requires IsNewest(a, among) && IsNewest(b, among)
    ensures a == b
  {
  }

  lemma GenerationIsNewest(b: Binding, epoch: nat)
    ensures IsNewest(epoch, GatingEpochs(b)) <==> epoch == Generation(b)
  {
    MaxPathEpochIsGreatest(b.paths, b.epochs.paths);
    assert IsNewest(Generation(b), GatingEpochs(b));
    if IsNewest(epoch, GatingEpochs(b)) { NewestIsOne(epoch, Generation(b), GatingEpochs(b)); }
  }

  lemma {:induction false} MaxKnownIsGreatest(c: Clocks, repo: string, branch: string, paths: seq<string>)
    ensures IsNewest(MaxKnownEpoch(c, repo, branch, paths), set p | p in paths :: EpochOf(c.paths, PathKey(repo, branch, p)))
  {
    if paths != [] {
      var front, last := paths[..|paths| - 1], paths[|paths| - 1];
      MaxKnownIsGreatest(c, repo, branch, front);
      assert paths == front + [last];
      var all, some := set p | p in paths :: EpochOf(c.paths, PathKey(repo, branch, p)), set p | p in front :: EpochOf(c.paths, PathKey(repo, branch, p));
      assert all == some + {EpochOf(c.paths, PathKey(repo, branch, last))};
    } else {
      assert (set p | p in paths :: EpochOf(c.paths, PathKey(repo, branch, p))) == {};
    }
  }

  lemma PresentIsNewest(s: Snapshot, d: Descriptor)
    ensures IsNewest(d.epoch, PresentEpochs(s, d)) <==> d.epoch == CurrentGeneration(s, d)
  {
    MaxKnownIsGreatest(s.clocks, s.current.repo, d.branch, d.paths);
    hide EpochOf, MaxKnownEpoch;
    assert IsNewest(CurrentGeneration(s, d), PresentEpochs(s, d));
    if IsNewest(d.epoch, PresentEpochs(s, d)) { NewestIsOne(d.epoch, CurrentGeneration(s, d), PresentEpochs(s, d)); }
  }
}
