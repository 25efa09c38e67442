/** What one update, one batch and one event may put into the stores, told from the stores alone. */
module StoreLaws {
  import opened Text
  import opened Records
  import opened WorkingStore
  import T = Transitions
  import opened Derivation

  // ---- one update ----

  /** Neither the kind of a record nor the evidence in it is rewritten. */
  predicate Faithful(before: Record, after: Record) {
    && before.RecordKind() == after.RecordKind()
    && (before.Failure? ==> (before.cmd == "" || after.cmd == before.cmd) && (before.err == "" || after.err == before.err))
    && (before.Constraint? ==> before.text == "" || after.text == before.text)
  }

  /** An update goes in exactly when it is an upsert of a record, has its evidence where that is asked
      for, names only evidence noted before, rewrites nothing it may not, and lint agrees.  It puts the
      record at its address, at the end of the order if it is new, with exactly its own evidence. */
  lemma UpdateLaw(w: Working, u: Update, requireEvidence: bool, lint: Lint)
    ensures ApplyOne(w, u, requireEvidence, lint).Ok? <==>
              && u.upsert && u.record.Some? && (requireEvidence ==> u.evidence != "") && (u.evidence != "" ==> u.evidence in w.events)
              && (u.record.value.Id() in w.byId ==> Faithful(w.byId[u.record.value.Id()], u.record.value))
              && lint(w, u.record.value)
    ensures ApplyOne(w, u, requireEvidence, lint).Ok? ==>
              var v, r, id := ApplyOne(w, u, requireEvidence, lint).value, u.record.value, u.record.value.Id();
              && v.events == w.events && v.byId == w.byId[id := r]
              && v.order == (if id in w.byId then w.order else w.order + [id])
              && (forall k :: k != id ==> (k in v.evidence <==> k in w.evidence) && (k in w.evidence ==> v.evidence[k] == w.evidence[k]))
              && (id in v.evidence <==> u.evidence != "") && (id in v.evidence ==> v.evidence[id] == u.evidence)
  {
  }

  // ---- one batch ----

  /** Some word of the reference, less the commas around it, is neither a record nor an event. */
  predicate RefersToNothing(w: Working, ref: string) {
    exists part :: part in Fields(TrimSpace(ref)) && TrimCommas(part) !in w.byId && TrimCommas(part) !in w.events
  }

  predicate DanglesIn(w: Working, u: Update) {
    u.record.Some? && u.record.value.Avoid? && u.record.value.ref != "" && RefersToNothing(w, u.record.value.ref)
  }

  /** A batch derived from an event is refused whole if an avoidance in it refers to nothing yet there,
      or if one of its updates names other evidence than the event; it is taken only when each update
      goes in after the ones before it, over a store that has noted the event. */
  lemma BatchGateLaw(w: Working, updates: seq<Update>, requireEvidence: bool, note: string, lint: Lint)
    ensures requireEvidence && (exists i :: 0 <= i < |updates| && DanglesIn(w, updates[i])) ==>
              Applied(w, updates, requireEvidence, note, lint) == Err(DanglingAvoid)
    ensures Applied(w, updates, requireEvidence, note, lint).Ok? ==>
              && (forall i :: 0 <= i < |updates| && note != "" ==> updates[i].evidence == note)
              && (requireEvidence ==> forall i :: 0 <= i < |updates| ==> !DanglesIn(w, updates[i]))
              && Applied(w, updates, requireEvidence, note, lint).value.events == (if note != "" then w.events + {note} else w.events)
    ensures (requireEvidence ==> forall i :: 0 <= i < |updates| ==> !DanglesIn(w, updates[i])) ==>
              Applied(w, updates, requireEvidence, note, lint)
              == ApplyEach(if note != "" then w.(events := w.events + {note}) else w, updates, requireEvidence, note, lint)
  {
    hide Fields, TrimSpace, TrimCommas, ApplyEach;
    forall i | 0 <= i < |updates| ensures DanglesIn(w, updates[i]) <==> Dangling(updates[i], KnownIds(w)) { DanglingIsDangling(w, updates[i]); }
    var start := if note != "" then w.(events := w.events + {note}) else w;
    if ApplyEach(start, updates, requireEvidence, note, lint).Ok? { EachIsNoted(start, updates, requireEvidence, note, lint); }
  }

  lemma DanglingIsDangling(w: Working, u: Update)
    ensures DanglesIn(w, u) <==> Dangling(u, KnownIds(w))
  {
    hide Fields, TrimSpace, TrimCommas;
  }

  /** The shortest batches: none leaves the store as it is, one is its update if the evidence is right. */
  lemma ShortBatches(w: Working, u: Update, requireEvidence: bool, note: string, lint: Lint)
    ensures ApplyEach(w, [], requireEvidence, note, lint) == Ok(w)
    ensures ApplyEach(w, [u], requireEvidence, note, lint)
         == if note != "" && u.evidence != note then Err(WrongEvidence) else ApplyOne(w, u, requireEvidence, lint)
  {
    hide ApplyOne;
    assert [u][1..] == [];
    match ApplyOne(w, u, requireEvidence, lint)
    case Err(_) =>
    case Ok(next) => assert ApplyEach(next, [], requireEvidence, note, lint) == Ok(next);
  }

  lemma {:induction false} EachIsNoted(w: Working, updates: seq<Update>, requireEvidence: bool, note: string, lint: Lint)
    requires ApplyEach(w, updates, requireEvidence, note, lint).Ok?
    ensures note != "" ==> forall i :: 0 <= i < |updates| ==> updates[i].evidence == note
    ensures ApplyEach(w, updates, requireEvidence, note, lint).value.events == w.events
    decreases |updates|
  {
    hide ApplyOne;
    if updates != [] {
      UpdateLaw(w, updates[0], requireEvidence, lint);
      EachIsNoted(ApplyOne(w, updates[0], requireEvidence, lint).value, updates[1..], requireEvidence, note, lint);
      assert updates == [updates[0]] + updates[1..];
    }
  }

  /** A batch is its first part and then, over what that leaves, the rest; it fails where either does. */
  lemma {:induction false} BatchIsInOrder(w: Working, a: seq<Update>, b: seq<Update>, requireEvidence: bool, note: string, lint: Lint)
    ensures ApplyEach(w, a + b, requireEvidence, note, lint)
         == match ApplyEach(w, a, requireEvidence, note, lint)
            case Err(e) => Err(e)
            case Ok(mid) => ApplyEach(mid, b, requireEvidence, note, lint)
    decreases |a|
  {
    hide ApplyOne;
    if a == [] {
      assert a + b == b;
    } else {
      assert (a + b)[1..] == a[1..] + b && (a + b)[0] == a[0];
      match ApplyOne(w, a[0], requireEvidence, lint)
      case Err(_) =>
      case Ok(next) => BatchIsInOrder(next, a[1..], b, requireEvidence, note, lint);
    }
  }

  // ---- observers ----

  /** Observers run in order: those behind see the ids those before have left, their updates come after,
      and the first that fails ends it with the ids used up so far. */
  lemma {:induction false} ObserversInOrder(a: seq<Observer>, b: seq<Observer>, w: Working, counters: Counters, entry: Entry)
    ensures var first := Observations(a, w, counters, entry);
            Observations(a + b, w, counters, entry) ==
            (match first.updates
             case None => first
             case Some(updates) => Prepended(updates, Observations(b, w, first.counters, entry)))
    decreases |a|
  {
    if a == [] {
      assert a + b == b;
      PrependedNone(Observations(b, w, counters, entry));
    } else {
      assert (a + b)[1..] == a[1..] + b && (a + b)[0] == a[0];
      var o := a[0](w, counters, entry);
      if o.updates.Some? {
        ObserversInOrder(a[1..], b, w, o.counters, entry);
        var rest := Observations(a[1..], w, o.counters, entry);
        if rest.updates.Some? {
          PrependedTwice(o.updates.value, rest.updates.value, Observations(b, w, rest.counters, entry));
        }
      }
    }
  }

  lemma PrependedTwice(a: seq<Update>, b: seq<Update>, o: Observed)
    ensures Prepended(a, Prepended(b, o)) == Prepended(a + b, o)
  {
    if o.updates.Some? { assert a + (b + o.updates.value) == a + b + o.updates.value; }
  }

  lemma OneObserver(observer: Observer, w: Working, counters: Counters, entry: Entry)
    ensures Observations([observer], w, counters, entry) == observer(w, counters, entry)
  {
    assert [observer][1..] == [];
    var o := observer(w, counters, entry);
    if o.updates.Some? { assert o.updates.value + [] == o.updates.value; }
  }

  // ---- one event ----

  /** The updates as they are stored: the observers' own, each under the event's id. */
  predicate UnderEvent(updates: seq<Update>, raw: seq<Update>, id: string) {
    |updates| == |raw| && forall i :: 0 <= i < |raw| ==> updates[i] == raw[i].(evidence := id)
  }

  predicate ViewedBy(views: seq<T.Derived>, updates: seq<Update>, rules: Rules) {
    |views| == |updates|
    && forall i :: 0 <= i < |updates| ==> views[i] == (if updates[i].record.Some? then rules.view(updates[i].record.value) else T.UnboundRecord)
  }

  /** The three stores agree on an event, and this is what they hold then. */
  ghost predicate Agreed(m: Memory, entry: Entry, rules: Rules, updates: seq<Update>, views: seq<T.Derived>) {
    var o := Observations(rules.observers, m.working, m.counters, entry);
    && T.Transition(m.coherence, entry.event).Ok? && o.updates.Some?
    && UnderEvent(updates, o.updates.value, entry.event.id) && ViewedBy(views, updates, rules)
    && T.Bound(T.Transition(m.coherence, entry.event).value, entry.event, views).Ok?
    && Applied(m.working, updates, true, entry.event.id, rules.lint).Ok?
  }

  /** An event goes in exactly when it is valid and the three stores agree: the transition with the
      records bound, the batch of exactly the observers' records, each under the event's id, and the ids
      the observers left.  Then all three hold it, one revision further. */
  lemma DeriveLaw(m: Memory, entry: Entry, rules: Rules)
    ensures DeriveValid(m, entry, rules).Some? <==>
              entry.event.id != "" && rules.valid(entry) && exists updates, views :: Agreed(m, entry, rules, updates, views)
    ensures forall updates, views :: Agreed(m, entry, rules, updates, views) && DeriveValid(m, entry, rules).Some? ==>
              var n := DeriveValid(m, entry, rules).value;
              && n.counters == Observations(rules.observers, m.working, m.counters, entry).counters
              && Applied(m.working, updates, true, entry.event.id, rules.lint) == Ok(n.working)
              && n.coherence.revision == m.coherence.revision + 1
              && n.coherence == T.Bound(T.Transition(m.coherence, entry.event).value, entry.event, views).value.(revision := n.coherence.revision)
  {
    hide T.Transition, T.Bound, Applied, Observations;
    var o := Observations(rules.observers, m.working, m.counters, entry);
    if o.updates.Some? {
      var updates := Stamped(o.updates.value, entry.event.id);
      var views := Views(updates, rules.view);
      assert UnderEvent(updates, o.updates.value, entry.event.id) && ViewedBy(views, updates, rules);
      forall u, v | Agreed(m, entry, rules, u, v) ensures u == updates && v == views { OneStamping(o.updates.value, entry.event.id, rules, u, v, updates, views); }
      if T.Transition(m.coherence, entry.event).Ok? && T.Bound(T.Transition(m.coherence, entry.event).value, entry.event, views).Ok?
         && Applied(m.working, updates, true, entry.event.id, rules.lint).Ok? {
        assert Agreed(m, entry, rules, updates, views);
      }
    }
  }

  lemma OneStamping(raw: seq<Update>, id: string, rules: Rules, u: seq<Update>, v: seq<T.Derived>, w: seq<Update>, x: seq<T.Derived>)
    requires UnderEvent(u, raw, id) && ViewedBy(v, u, rules) && UnderEvent(w, raw, id) && ViewedBy(x, w, rules)
    ensures u == w && v == x
  {
  }
}
