/** Deriving memory from one event: coherence, working state and id counters move together or not at
    all, live and when the ledger is replayed into fresh stores with counters of their own, one accepted
    event after the other. */
module Derivation {
  import opened Text
  import Records
  import Snapshots
  import T = Transitions
  import opened Coherence
  import opened WorkingStore
  import PathHistory

  // ---- ids ----

  type Counters = map<string, nat>

  function CountOf(n: Counters, prefix: string): nat {
    if prefix in n then n[prefix] else 0
  }

  function IdNamed(prefix: string, n: nat): string {
    prefix + Decimal(n)
  }

  class SeqIDGen {
    var n: Counters

    constructor ()
      ensures n == map[]
    {
      n := map[];
    }

    method Next(prefix: string) returns (id: string)
      modifies this
      ensures n == old(n)[prefix := CountOf(old(n), prefix) + 1]
      ensures id == IdNamed(prefix, CountOf(n, prefix))
    {
      n := n[prefix := CountOf(n, prefix) + 1];
      id := prefix + Decimal(n[prefix]);
    }

    method Snapshot() returns (counters: Counters)
      ensures counters == n
    {
      counters := n;
    }

    method Restore(counters: Counters)
      modifies this
      ensures n == counters
    {
      n := counters;
    }
  }

  /** Different counts name different ids of a prefix. */
  lemma IdsDiffer(prefix: string, a: nat, b: nat)
    requires IdNamed(prefix, a) == IdNamed(prefix, b)
    ensures a == b
  {
    assert IdNamed(prefix, a)[|prefix|..] == Decimal(a);
    assert IdNamed(prefix, b)[|prefix|..] == Decimal(b);
    ParseDigitsOfDecimal(a);
    ParseDigitsOfDecimal(b);
  }

  /** A checkpoint of the counters, settled once: kept or restored. */
  class AllocatorCheckpoint {
    const allocator: SeqIDGen
    const counters: Counters
    var settled: bool

    constructor (allocator: SeqIDGen)
      ensures this.allocator == allocator && counters == allocator.n && !settled
    {
      this.allocator, counters, settled := allocator, allocator.n, false;
    }

    method Commit()
      modifies this
      ensures settled
    {
      settled := true;
    }

    method Restore()
      modifies this, allocator
      ensures settled
      ensures allocator.n == if old(settled) then old(allocator.n) else counters
    {
      if settled {
        return;
      }
      settled := true;
      allocator.Restore(counters);
    }
  }

  // ---- observers ----

  /** A ledger entry: its sequence number, what coherence reads of it, and the payload observers read. */
  datatype Entry = Entry(seqNo: nat, event: T.Event, payload: string)

  /** What one observer makes of an event: its updates, or a failure; and the counters it leaves. */
  datatype Observed = Observed(updates: Option<seq<Update>>, counters: Counters)

  type Observer = (Working, Counters, Entry) -> Observed

  /** The parts the session is configured with; every result holds for any choice of them. */
  datatype Rules = Rules(valid: Entry -> bool, observers: seq<Observer>, view: Records.Record -> T.Derived, lint: Lint)

  /** All observers in turn, each after the counters the one before left. */
  function Observations(observers: seq<Observer>, w: Working, counters: Counters, entry: Entry): Observed
    decreases |observers|
  {
    if observers == [] then Observed(Some([]), counters)
    else
      var first := observers[0](w, counters, entry);
      match first.updates
      case None => first
      case Some(updates) =>
        var rest := Observations(observers[1..], w, first.counters, entry);
        match rest.updates
        case None => rest
        case Some(more) => Observed(Some(updates + more), rest.counters)
  }

  method OnEvent(observers: seq<Observer>, working: WorkingState, ids: SeqIDGen, entry: Entry) returns (updates: Option<seq<Update>>)
    modifies ids
    ensures Observed(updates, ids.n) == Observations(observers, working.Contents(), old(ids.n), entry)
  {
    var gathered: seq<Update> := [];
    var i := 0;
    ghost var w := working.Contents();
    ghost var all := Observations(observers, w, ids.n, entry);
    assert observers[0..] == observers;
    PrependedNone(all);
    while i < |observers|
      invariant 0 <= i <= |observers|
      invariant working.Contents() == w
      invariant all == Prepended(gathered, Observations(observers[i..], w, ids.n, entry))
    {
      assert observers[i..][0] == observers[i] && observers[i..][1..] == observers[i + 1..];
      var o := observers[i](Working(working.byId, working.order, working.events, working.evidence), ids.n, entry);
      ids.Restore(o.counters);
      if o.updates.None? {
        return None;
      }
      assert forall more :: gathered + (o.updates.value + more) == gathered + o.updates.value + more;
      gathered := gathered + o.updates.value;
      i := i + 1;
    }
    assert gathered + [] == gathered;
    updates := Some(gathered);
  }

  function Prepended(updates: seq<Update>, o: Observed): Observed {
    match o.updates
    case None => o
    case Some(more) => o.(updates := Some(updates + more))
  }

  lemma PrependedNone(o: Observed)
    ensures Prepended([], o) == o
  {
    if o.updates.Some? { assert [] + o.updates.value == o.updates.value; }
  }

  // ---- one event ----

  /** Everything that is derived from the ledger. */
  datatype Memory = Memory(coherence: Snapshots.Snapshot, working: Working, counters: Counters)

  const NoMemory := Memory(Snapshots.Empty, NoRecords, map[])

  function Stamped(updates: seq<Update>, id: string): seq<Update> {
    seq(|updates|, i requires 0 <= i < |updates| => updates[i].(evidence := id))
  }

  /** The records of a batch as coherence reads them; an update without a record binds nothing. */
  function Views(updates: seq<Update>, view: Records.Record -> T.Derived): seq<T.Derived> {
    seq(|updates|, i requires 0 <= i < |updates| => if updates[i].record.Some? then view(updates[i].record.value) else T.UnboundRecord)
  }

  /** The rest of a derivation, once the coherence candidate is there. */
  function Filled(next: Snapshots.Snapshot, m: Memory, entry: Entry, rules: Rules): Option<Memory> {
    var o := Observations(rules.observers, m.working, m.counters, entry);
    if o.updates.None? then None
    else
      var updates := Stamped(o.updates.value, entry.event.id);
      match T.Bound(next, entry.event, Views(updates, rules.view))
      case Err(_) => None
      case Ok(bound) =>
        match Applied(m.working, updates, true, entry.event.id, rules.lint)
        case Err(_) => None
        case Ok(w) => Some(Memory(bound, w, o.counters))
  }

  /** The memory after an event that goes in; nothing if any of the three stores refuses. */
  ghost function Derive(m: Memory, entry: Entry, rules: Rules): Option<Memory> {
    match T.Transition(m.coherence, entry.event)
    case Err(_) => None
    case Ok(next) =>
      match Filled(next, m, entry, rules)
      case None => None
      case Some(filled) => Some(filled.(coherence := filled.coherence.(revision := m.coherence.revision + 1)))
  }

  ghost function DeriveValid(m: Memory, entry: Entry, rules: Rules): Option<Memory> {
    if entry.event.id != "" && rules.valid(entry) then Derive(m, entry, rules) else None
  }

  ghost predicate Sound(m: Memory) {
    PathHistory.Truthful(m.coherence) && Consistent(m.working)
  }

  class Scheduler {
    const coherence: State
    const working: WorkingState
    const ids: SeqIDGen
    const rules: Rules

    ghost function Derived(): Memory
      reads coherence, working, ids
    {
      Memory(coherence.snapshot, working.Contents(), ids.n)
    }

    constructor (rules: Rules)
      ensures Derived() == NoMemory && this.rules == rules
      ensures fresh(coherence) && fresh(working) && fresh(ids)
    {
      this.rules := rules;
      coherence := new State();
      working := new WorkingState();
      ids := new SeqIDGen();
    }

    /** What happens while the coherence state is held: a refusal has moved neither store, though it
        may have used up ids. */
    method WithCandidate(candidate: Candidate, entry: Entry) returns (ok: bool)
      requires Consistent(working.Contents()) && candidate.event == entry.event && entry.event.id != ""
      modifies candidate, working, ids
      ensures coherence.snapshot == old(coherence.snapshot)
      ensures match Filled(old(candidate.next), old(Derived()), entry, rules)
              case Some(m) => ok && candidate.next == m.coherence && working.Contents() == m.working && ids.n == m.counters && Consistent(m.working)
              case None => !ok && working.Contents() == old(working.Contents())
    {
      hide T.Bound, Applied, Observations, Consistent;
      var updates := OnEvent(rules.observers, working, ids, entry);
      if updates.None? {
        return false;
      }
      var stamped := Stamped(updates.value, entry.event.id);
      var unbound := candidate.BindUpdates(Views(stamped, rules.view));
      if unbound != T.None {
        return false;
      }
      var rejected := working.ApplyUpdates(stamped, true, entry.event.id, rules.lint);
      ok := rejected == None;
    }

    /** The transaction over the three stores: all of them move, or none does. */
    method AfterEvent(entry: Entry) returns (ok: bool)
      requires Consistent(working.Contents())
      modifies coherence, working, ids
      ensures match DeriveValid(old(Derived()), entry, rules)
              case Some(m) => ok && Derived() == m && Consistent(m.working)
              case None => !ok && Derived() == old(Derived())
    {
      hide T.Transition, Filled, Consistent;
      if entry.event.id == "" || !rules.valid(entry) {
        return false;
      }
      var checkpoint := new AllocatorCheckpoint(ids);
      var candidate, refused := coherence.Prepare(entry.event);
      if refused != T.None {
        checkpoint.Restore();
        return false;
      }
      ok := WithCandidate(candidate, entry);
      if !ok {
        checkpoint.Restore();
        return false;
      }
      coherence.Install(candidate);
      checkpoint.Commit();
    }
  }

  // ---- runs ----

  /** A live session: refused entries leave the memory alone. */
  ghost function Live(m: Memory, entries: seq<Entry>, rules: Rules): Memory
    decreases |entries|
  {
    if entries == [] then m
    else
      match DeriveValid(m, entries[0], rules)
      case None => Live(m, entries[1..], rules)
      case Some(next) => Live(next, entries[1..], rules)
  }

  /** The entries of a session that went in. */
  ghost function Accepted(m: Memory, entries: seq<Entry>, rules: Rules): seq<Entry>
    decreases |entries|
  {
    if entries == [] then []
    else
      match DeriveValid(m, entries[0], rules)
      case None => Accepted(m, entries[1..], rules)
      case Some(next) => [entries[0]] + Accepted(next, entries[1..], rules)
  }

  /** Rebuilding from a ledger: the first refusal ends it. */
  ghost function Replayed(m: Memory, entries: seq<Entry>, rules: Rules): Option<Memory>
    decreases |entries|
  {
    if entries == [] then Some(m)
    else if entries[0].event.id == "" then None
    else
      match Derive(m, entries[0], rules)
      case None => None
      case Some(next) => Replayed(next, entries[1..], rules)
  }

  /** After any mix of accepted and refused entries, the memory is what the accepted ones alone give,
      and rebuilding from those, with fresh stores and fresh counters, gives it again.  This much is true
      of any step that refuses or succeeds as a whole; that the runtime's step is one is what AfterEvent
      and WithCandidate prove, and that its rebuild takes the same step is what Replay proves. */
  lemma {:induction false} ReplayReachesTheLiveState(m: Memory, entries: seq<Entry>, rules: Rules)
    ensures Live(m, Accepted(m, entries, rules), rules) == Live(m, entries, rules)
    ensures Replayed(m, Accepted(m, entries, rules), rules) == Some(Live(m, entries, rules))
    decreases |entries|
  {
    hide Derive;
    if entries != [] {
      match DeriveValid(m, entries[0], rules)
      case None => ReplayReachesTheLiveState(m, entries[1..], rules);
      case Some(next) =>
        ReplayReachesTheLiveState(next, entries[1..], rules);
        var rest := Accepted(next, entries[1..], rules);
        assert ([entries[0]] + rest)[1..] == rest;
    }
  }

  /** At every event the rebuild stands where the session stood, so whatever is computed from the
      memory there, the pages of the index among it, comes out the same.  Like the lemma above it rests
      on AfterEvent, WithCandidate and Replay for the runtime's own steps. */
  lemma {:induction false} EveryPrefixReplays(m: Memory, entries: seq<Entry>, rules: Rules, k: nat)
    requires k <= |Accepted(m, entries, rules)|
    ensures var went := Accepted(m, entries, rules)[..k];
            Replayed(m, went, rules) == Some(Live(m, went, rules))
    decreases |entries|
  {
    hide Derive;
    if entries != [] {
      match DeriveValid(m, entries[0], rules)
      case None => EveryPrefixReplays(m, entries[1..], rules, k);
      case Some(next) =>
        if k > 0 {
          var rest := Accepted(next, entries[1..], rules);
          EveryPrefixReplays(next, entries[1..], rules, k - 1);
          var went := Accepted(m, entries, rules)[..k];
          assert went[0] == entries[0] && went[1..] == rest[..k - 1];
        }
    }
  }

  /** The rebuild, with stores of its own: prepare, observe, bind, apply, commit, entry by entry. */
  method Replay(entries: seq<Entry>, rules: Rules) returns (ok: bool, coherent: State, state: WorkingState, ids: SeqIDGen)
    ensures fresh(coherent) && fresh(state) && fresh(ids)
    ensures match Replayed(NoMemory, entries, rules)
            case Some(m) => ok && Memory(coherent.snapshot, state.Contents(), ids.n) == m
            case None => !ok
  {
    hide T.Transition, Derive, Consistent;
    coherent := new State();
    state := new WorkingState();
    ids := new SeqIDGen();
    assert Consistent(NoRecords) by { NoRecordsConsistent(); }
    var i := 0;
    while i < |entries|
      invariant 0 <= i <= |entries|
      invariant fresh(coherent) && fresh(state) && fresh(ids) && Consistent(state.Contents())
      invariant Replayed(Memory(coherent.snapshot, state.Contents(), ids.n), entries[i..], rules) == Replayed(NoMemory, entries, rules)
    {
      assert entries[i..][0] == entries[i] && entries[i..][1..] == entries[i + 1..];
      ok := ReplayOne(entries[i], rules, coherent, state, ids);
      if !ok {
        return;
      }
      i := i + 1;
    }
    ok := true;
  }

  lemma NoRecordsConsistent()
    ensures Consistent(NoRecords)
  {
  }

  method ReplayOne(entry: Entry, rules: Rules, coherent: State, state: WorkingState, ids: SeqIDGen) returns (ok: bool)
    requires Consistent(state.Contents())
    modifies coherent, state, ids
    ensures ok ==> entry.event.id != ""
    ensures entry.event.id != "" ==>
              match Derive(old(Memory(coherent.snapshot, state.Contents(), ids.n)), entry, rules)
              case Some(m) => ok && Memory(coherent.snapshot, state.Contents(), ids.n) == m && Consistent(m.working)
              case None => !ok
  {
    hide T.Bound, Applied, Observations, Consistent, T.Applied, T.EventBound;
    var candidate, refused := coherent.Prepare(entry.event);
    if refused != T.None {
      return false;
    }
    var updates := OnEvent(rules.observers, state, ids, entry);
    if updates.None? {
      return false;
    }
    var stamped := Stamped(updates.value, entry.event.id);
    var unbound := candidate.BindUpdates(Views(stamped, rules.view));
    if unbound != T.None {
      return false;
    }
    var rejected := state.ApplyUpdates(stamped, true, entry.event.id, rules.lint);
    if rejected != None {
      return false;
    }
    var lost := coherent.Commit(candidate);
    ok := lost == T.None;
  }

  // ---- what holds of every live session ----

  /** A derivation is a committed coherence input and an applied batch. */
  lemma DeriveIsCommitted(m: Memory, entry: Entry, rules: Rules)
    requires Derive(m, entry, rules).Some?
    ensures var updates := Stamped(Observations(rules.observers, m.working, m.counters, entry).updates.value, entry.event.id);
            T.Committed(m.coherence, T.Input(entry.event, Views(updates, rules.view))) == T.Ok(Derive(m, entry, rules).value.coherence)
  {
    hide T.Transition, T.Bound, Applied, Observations, Stamped, Views;
  }

  lemma DeriveKeeps(m: Memory, entry: Entry, rules: Rules)
    requires Sound(m) && Derive(m, entry, rules).Some?
    ensures var n := Derive(m, entry, rules).value;
            Sound(n) && PathHistory.DeadStay(m.coherence, n.coherence) && Evolves(m.working, n.working)
            && n.coherence.revision == m.coherence.revision + 1
  {
    hide T.Transition, T.Bound, Observations, Stamped, Views, PathHistory.Truthful, PathHistory.DeadStay, Consistent, Evolves, T.Committed, ApplyEach;
    DeriveIsCommitted(m, entry, rules);
    var updates := Stamped(Observations(rules.observers, m.working, m.counters, entry).updates.value, entry.event.id);
    PathHistory.CommittedKeeps(m.coherence, T.Input(entry.event, Views(updates, rules.view)));
    NotingKeeps(m.working, entry.event.id);
    var noted := if entry.event.id != "" then m.working.(events := m.working.events + {entry.event.id}) else m.working;
    ApplyEachKeeps(noted, updates, true, entry.event.id, rules.lint);
    EvolvesTwice(m.working, noted, Derive(m, entry, rules).value.working);
  }

  /** On every run of a session: the coherence facts hold, the store is consistent, its order only
      grows, records keep their kind and their evidence, and invalidated paths stay as they are. */
  lemma {:induction false} LiveKeeps(m: Memory, entries: seq<Entry>, rules: Rules)
    requires Sound(m)
    ensures var n := Live(m, entries, rules);
            Sound(n) && PathHistory.DeadStay(m.coherence, n.coherence) && Evolves(m.working, n.working)
            && n.coherence.revision == m.coherence.revision + |Accepted(m, entries, rules)|
    decreases |entries|
  {
    hide Derive, Sound, PathHistory.DeadStay, Evolves;
    if entries == [] {
      PathHistory.StayReflexive(m.coherence);
      EvolvesNot(m.working);
    } else {
      match DeriveValid(m, entries[0], rules)
      case None => LiveKeeps(m, entries[1..], rules);
      case Some(next) =>
        DeriveKeeps(m, entries[0], rules);
        LiveKeeps(next, entries[1..], rules);
        PathHistory.StayTransitive(m.coherence, next.coherence, Live(m, entries, rules).coherence);
        EvolvesTwice(m.working, next.working, Live(m, entries, rules).working);
    }
  }

  /** The same from an empty session. */
  lemma {:induction false} EverySessionIsSound(entries: seq<Entry>, rules: Rules)
    ensures Sound(Live(NoMemory, entries, rules))
    ensures Live(NoMemory, entries, rules).coherence.revision == |Accepted(NoMemory, entries, rules)|
  {
    hide Live, Accepted, PathHistory.Truthful, Consistent, PathHistory.DeadStay, Evolves;
    PathHistory.EmptyIsTruthful();
    NoRecordsConsistent();
    LiveKeeps(NoMemory, entries, rules);
  }
}
