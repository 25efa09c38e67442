/** Batches embedding documents at the same time. */
module SingleFlight {
  import opened DocumentCaching

  // Each key is computed by one of them, the others wait.

  datatype Lead = Lead(key: string, flight: nat)

  /** How a backend call ended: with an error for the whole batch, or a vector for every key. */
  datatype Answer = Failure(error: string) | Vectors(byKey: map<string, Embedding>)

  /** Where one call stands: claiming its missing keys one by one, in the backend, finishing the
      flights it leads, waiting for those it follows, or returned. */
  datatype Caller =
    | Claiming(todo: seq<string>, leaders: seq<Lead>, followers: seq<nat>)
    | InBackend(leaders: seq<Lead>, followers: seq<nat>)
    | Finishing(left: seq<Lead>, answer: Answer, followers: seq<nat>)
    | Waiting(followers: seq<nat>)
    | Returned(error: Option<string>)

  datatype Circuit = Closed | Open | HalfOpen

  /** The claimer, the call that last claimed the probe, is only a record of history. */
  datatype Breaker = Breaker(circuit: Circuit, probe: bool, failures: nat, claimer: nat)

  /** What each caller has got so far is kept by key; received tells which follower got what from whom. */
  datatype System = System(
    callers: seq<Caller>, flights: map<string, nat>, owner: seq<nat>, keyOf: seq<string>,
    ended: map<nat, Outcome>, stored: map<string, Embedding>, received: set<(nat, nat, Outcome)>, breaker: Breaker,
    got: seq<map<string, Embedding>>)

  datatype Move =
    | Claim(claimer: nat, spoiled: bool)
    | Allow(asker: nat, cooled: bool)
    | Answered(called: nat, answer: Answer)
    | Finish(finisher: nat, evicted: set<string>)
    | Record(recorder: nat)
    | Wait(waiter: nat, cancelled: bool)

  // ---- the breaker ----

  /** An open circuit lets one probe through after its cooldown. */
  function Admitted(b: Breaker, cooled: bool, asker: nat): (bool, Breaker) {
    match b.circuit
    case Closed => (true, b)
    case Open => if !cooled || b.probe then (false, b) else (true, b.(circuit := HalfOpen, probe := true, claimer := asker))
    case HalfOpen => if b.probe then (false, b) else (true, b.(probe := true, claimer := asker))
  }

  function Succeeded(b: Breaker): Breaker {
    Breaker(Closed, false, 0, b.claimer)
  }

  function FailedOnce(b: Breaker, threshold: nat): Breaker {
    Breaker(if b.failures + 1 >= threshold then Open else b.circuit, false, b.failures + 1, b.claimer)
  }

  // ---- moves; an impossible one changes nothing ----

  function OutcomeFor(answer: Answer, key: string): Outcome {
    match answer
    case Failure(error) => Bad(error)
    case Vectors(byKey) => Good(if key in byKey then byKey[key] else "")
  }

  function AnswersAll(answer: Answer, leaders: seq<Lead>): bool {
    answer.Failure? || forall i :: 0 <= i < |leaders| ==> leaders[i].key in answer.byKey
  }

  /** One caller's result for one key. */
  function Given(got: seq<map<string, Embedding>>, c: nat, key: string, e: Embedding): seq<map<string, Embedding>> {
    if c < |got| then got[c := got[c][key := e]] else got
  }

  function Claimed(s: System, c: nat, spoiled: bool): System
    requires c < |s.callers| && s.callers[c].Claiming? && s.callers[c].todo != []
  {
    var p := s.callers[c];
    var key, rest := p.todo[0], p.todo[1..];
    if key in s.stored then
      s.(callers := s.callers[c := if spoiled then Finishing(p.leaders, Failure("invalid embedding"), []) else p.(todo := rest)],
         got := if spoiled then s.got else Given(s.got, c, key, s.stored[key]))
    else if key in s.flights then
      s.(callers := s.callers[c := p.(todo := rest, followers := p.followers + [s.flights[key]])])
    else
      s.(callers := s.callers[c := p.(todo := rest, leaders := p.leaders + [Lead(key, |s.owner|)])],
         flights := s.flights[key := |s.owner|], owner := s.owner + [c], keyOf := s.keyOf + [key])
  }

  function Finished(s: System, c: nat, evicted: set<string>): System
    requires c < |s.callers| && s.callers[c].Finishing? && s.callers[c].left != []
  {
    var p := s.callers[c];
    var lead := p.left[0];
    var outcome := OutcomeFor(p.answer, lead.key);
    s.(callers := s.callers[c := p.(left := p.left[1..])],
       flights := if lead.key in s.flights && s.flights[lead.key] == lead.flight then s.flights - {lead.key} else s.flights,
       ended := s.ended[lead.flight := outcome],
       stored := if outcome.Good? then s.stored[lead.key := outcome.embedding] - evicted else s.stored,
       got := if outcome.Good? then Given(s.got, c, lead.key, outcome.embedding) else s.got)
  }

  function Waited(s: System, c: nat, cancelled: bool): System
    requires c < |s.callers| && s.callers[c].Waiting?
  {
    var p := s.callers[c];
    if p.followers == [] then s.(callers := s.callers[c := Returned(None)])
    else if cancelled then s.(callers := s.callers[c := Returned(Some("cancelled"))])
    else
      var f := p.followers[0];
      if f !in s.ended then s
      else
        s.(callers := s.callers[c := if s.ended[f].Bad? then Returned(Some(s.ended[f].error)) else Waiting(p.followers[1..])],
           received := s.received + {(c, f, s.ended[f])},
           got := if s.ended[f].Good? && f < |s.keyOf| then Given(s.got, c, s.keyOf[f], s.ended[f].embedding) else s.got)
  }

  /** All keys are claimed: a call that leads none goes straight to waiting, any other asks the breaker. */
  function Asked(s: System, c: nat, cooled: bool): System
    requires c < |s.callers| && s.callers[c].Claiming? && s.callers[c].todo == []
  {
    var p := s.callers[c];
    if p.leaders == [] then s.(callers := s.callers[c := Waiting(p.followers)])
    else
      var (ok, b) := Admitted(s.breaker, cooled, c);
      s.(callers := s.callers[c := if ok then InBackend(p.leaders, p.followers) else Finishing(p.leaders, Failure("circuit open"), [])],
         breaker := b)
  }

  /** A failure is recorded before the flights are finished; a success only after. */
  function Answering(s: System, c: nat, answer: Answer, threshold: nat): System
    requires c < |s.callers| && s.callers[c].InBackend?
  {
    var p := s.callers[c];
    s.(callers := s.callers[c := Finishing(p.leaders, answer, if answer.Failure? then [] else p.followers)],
       breaker := if answer.Failure? then FailedOnce(s.breaker, threshold) else s.breaker)
  }

  function Recorded(s: System, c: nat): System
    requires c < |s.callers| && s.callers[c].Finishing? && s.callers[c].left == []
  {
    var p := s.callers[c];
    if p.answer.Failure? then s.(callers := s.callers[c := Returned(Some(p.answer.error))])
    else s.(callers := s.callers[c := Waiting(p.followers)], breaker := Succeeded(s.breaker))
  }

  function Moved(s: System, move: Move, threshold: nat): System {
    match move
    case Claim(c, spoiled) => if c < |s.callers| && s.callers[c].Claiming? && s.callers[c].todo != [] then Claimed(s, c, spoiled) else s
    case Allow(c, cooled) => if c < |s.callers| && s.callers[c].Claiming? && s.callers[c].todo == [] then Asked(s, c, cooled) else s
    case Answered(c, answer) =>
      if c < |s.callers| && s.callers[c].InBackend? && AnswersAll(answer, s.callers[c].leaders) then Answering(s, c, answer, threshold) else s
    case Finish(c, evicted) => if c < |s.callers| && s.callers[c].Finishing? && s.callers[c].left != [] then Finished(s, c, evicted) else s
    case Record(c) => if c < |s.callers| && s.callers[c].Finishing? && s.callers[c].left == [] then Recorded(s, c) else s
    case Wait(c, cancelled) => if c < |s.callers| && s.callers[c].Waiting? then Waited(s, c, cancelled) else s
  }

  function Run(s: System, moves: seq<Move>, threshold: nat): System
    decreases |moves|
  {
    if moves == [] then s else Run(Moved(s, moves[0], threshold), moves[1..], threshold)
  }

  /** Some callers, each with the keys it did not find, and nothing in flight. */
  function Begun(batches: seq<seq<string>>, stored: map<string, Embedding>): System {
    System(seq(|batches|, i requires 0 <= i < |batches| => Claiming(batches[i], [], [])), map[], [], [], map[], stored, {}, Breaker(Closed, false, 0, 0),
           seq(|batches|, i requires 0 <= i < |batches| => map[]))
  }

  // ---- the invariant ----

  /** The flights a caller leads and has not finished. */
  function Unfinished(p: Caller): seq<Lead> {
    match p
    case Claiming(_, leaders, _) => leaders
    case InBackend(leaders, _) => leaders
    case Finishing(left, _, _) => left
    case _ => []
  }

  function Followed(p: Caller): seq<nat> {
    match p
    case Claiming(_, _, followers) => followers
    case InBackend(_, followers) => followers
    case Finishing(_, _, followers) => followers
    case Waiting(followers) => followers
    case Returned(_) => []
  }

  /** What a caller leads is its own, begun, and not ended; no flight twice. */
  ghost predicate LeadsTrue(s: System, c: nat)
    requires c < |s.callers|
  {
    var leads := Unfinished(s.callers[c]);
    && |s.keyOf| == |s.owner|
    && (forall i :: 0 <= i < |leads| ==>
          leads[i].flight < |s.owner| && s.owner[leads[i].flight] == c && s.keyOf[leads[i].flight] == leads[i].key
          && leads[i].flight !in s.ended)
    && (forall i, j :: 0 <= i < j < |leads| ==> leads[i].flight != leads[j].flight)
  }

  ghost predicate Shape(s: System) {
    && |s.keyOf| == |s.owner|
    && (forall f :: f in s.ended ==> f < |s.owner|)
    && (forall k :: k in s.flights ==> s.flights[k] < |s.owner| && s.flights[k] !in s.ended && s.keyOf[s.flights[k]] == k)
    && (forall c, f :: 0 <= c < |s.callers| && f in Followed(s.callers[c]) ==> f < |s.owner|)
    && (forall r :: r in s.received ==> r.1 in s.ended && s.ended[r.1] == r.2)
  }

  /** A flight that has not ended is registered under its key, and led by a caller that will finish it. */
  ghost predicate FlightLed(s: System, f: nat)
    requires f < |s.owner| && |s.keyOf| == |s.owner|
  {
    && s.owner[f] < |s.callers|
    && Lead(s.keyOf[f], f) in Unfinished(s.callers[s.owner[f]])
    && s.keyOf[f] in s.flights && s.flights[s.keyOf[f]] == f
  }

  ghost predicate Inv(s: System) {
    && Shape(s)
    && (forall c :: 0 <= c < |s.callers| ==> LeadsTrue(s, c))
    && (forall f: nat :: f < |s.owner| && f !in s.ended ==> FlightLed(s, f))
  }

  predicate Probing(p: Caller) {
    p.InBackend? || (p.Finishing? && p.answer.Vectors?)
  }

  /** A claimed probe belongs to the call that claimed it, which has not come back from the backend
      with its outcome recorded; the circuit is closed below the threshold. */
  ghost predicate BreakerTrue(s: System, threshold: nat) {
    && (s.breaker.probe ==> s.breaker.claimer < |s.callers| && Probing(s.callers[s.breaker.claimer]))
    && (s.breaker.circuit != Closed ==> s.breaker.failures >= threshold)
  }

  lemma BegunInv(batches: seq<seq<string>>, stored: map<string, Embedding>, threshold: nat)
    ensures Inv(Begun(batches, stored)) && BreakerTrue(Begun(batches, stored), threshold)
  {
  }

  // ---- every move keeps it ----

  /** A caller changing without gaining or losing a lead, or following anything new. */
  lemma QuietKeeps(s: System, t: System, c: nat, p: Caller)
    requires Inv(s) && c < |s.callers| && t.callers == s.callers[c := p]
    requires t.flights == s.flights && t.owner == s.owner && t.keyOf == s.keyOf && t.ended == s.ended
    requires Unfinished(p) == Unfinished(s.callers[c])
    requires forall f :: f in Followed(p) ==> f < |s.owner|
    requires forall r :: r in t.received ==> r.1 in s.ended && s.ended[r.1] == r.2
    ensures Inv(t)
  {
    hide Followed;
    forall f: nat | f < |t.owner| && f !in t.ended
      ensures FlightLed(t, f)
    {
      assert FlightLed(s, f);
    }
    forall d | 0 <= d < |t.callers|
      ensures LeadsTrue(t, d)
    {
      assert LeadsTrue(s, d);
    }
  }

  /** Whose leads other than the claimer's are untouched by a new flight. */
  lemma LeadLeads(s: System, c: nat, spoiled: bool, d: nat)
    requires Inv(s) && c < |s.callers| && s.callers[c].Claiming? && s.callers[c].todo != []
    requires s.callers[c].todo[0] !in s.stored && s.callers[c].todo[0] !in s.flights
    requires d < |s.callers|
    ensures LeadsTrue(Claimed(s, c, spoiled), d)
  {
    hide FlightLed;
    assert LeadsTrue(s, d);
  }

  lemma LeadFlights(s: System, c: nat, spoiled: bool, f: nat)
    requires Inv(s) && c < |s.callers| && s.callers[c].Claiming? && s.callers[c].todo != []
    requires s.callers[c].todo[0] !in s.stored && s.callers[c].todo[0] !in s.flights
    requires f <= |s.owner| && f !in s.ended
    ensures FlightLed(Claimed(s, c, spoiled), f)
  {
    hide LeadsTrue;
    var p, t := s.callers[c], Claimed(s, c, spoiled);
    if f == |s.owner| {
      assert t.callers[c].leaders[|p.leaders|] == Lead(p.todo[0], f);
    } else {
      assert FlightLed(s, f);
    }
  }

  lemma LeadKeeps(s: System, c: nat, spoiled: bool)
    requires Inv(s) && c < |s.callers| && s.callers[c].Claiming? && s.callers[c].todo != []
    requires s.callers[c].todo[0] !in s.stored && s.callers[c].todo[0] !in s.flights
    ensures Inv(Claimed(s, c, spoiled))
  {
    hide LeadsTrue, FlightLed;
    var t := Claimed(s, c, spoiled);
    forall d | 0 <= d < |t.callers|
      ensures LeadsTrue(t, d)
    {
      LeadLeads(s, c, spoiled, d);
    }
    forall f: nat | f < |t.owner| && f !in t.ended
      ensures FlightLed(t, f)
    {
      LeadFlights(s, c, spoiled, f);
    }
    forall d, f | 0 <= d < |t.callers| && f in Followed(t.callers[d])
      ensures f < |t.owner|
    {
      assert f in Followed(s.callers[d]);
    }
  }

  lemma ClaimKeeps(s: System, c: nat, spoiled: bool)
    requires Inv(s) && c < |s.callers| && s.callers[c].Claiming? && s.callers[c].todo != []
    ensures Inv(Claimed(s, c, spoiled))
  {
    hide Inv, LeadsTrue;
    var p, t := s.callers[c], Claimed(s, c, spoiled);
    if p.todo[0] in s.stored || p.todo[0] in s.flights {
      FollowedTrue(s, c);
      QuietKeeps(s, t, c, t.callers[c]);
    } else {
      LeadKeeps(s, c, spoiled);
    }
  }

  lemma FinishLeads(s: System, c: nat, evicted: set<string>, d: nat)
    requires Inv(s) && c < |s.callers| && s.callers[c].Finishing? && s.callers[c].left != [] && d < |s.callers|
    ensures LeadsTrue(Finished(s, c, evicted), d)
  {
    hide FlightLed, OutcomeFor, Shape;
    var p, t := s.callers[c], Finished(s, c, evicted);
    assert LeadsTrue(s, c) && p.left == Unfinished(s.callers[c]);
    assert LeadsTrue(s, d);
    assert t.owner == s.owner && t.keyOf == s.keyOf && t.ended.Keys == s.ended.Keys + {p.left[0].flight};
    if d == c {
      assert Unfinished(t.callers[d]) == p.left[1..];
      assert forall i :: 0 <= i < |p.left| - 1 ==> p.left[1..][i] == p.left[i + 1];
    } else {
      assert Unfinished(t.callers[d]) == Unfinished(s.callers[d]);
    }
  }

  /** A flight led by anyone stays led when another flight is finished. */
  lemma FlightStaysLed(s: System, c: nat, evicted: set<string>, f: nat)
    requires c < |s.callers| && s.callers[c].Finishing? && s.callers[c].left != []
    requires |s.keyOf| == |s.owner| && f < |s.owner| && FlightLed(s, f) && f != s.callers[c].left[0].flight
    ensures FlightLed(Finished(s, c, evicted), f)
  {
    hide OutcomeFor;
    var left, t := s.callers[c].left, Finished(s, c, evicted);
    assert left == [left[0]] + left[1..];
    if s.owner[f] == c {
      assert Unfinished(s.callers[c]) == left && Unfinished(t.callers[c]) == left[1..];
    } else {
      assert t.callers[s.owner[f]] == s.callers[s.owner[f]];
    }
  }

  lemma FinishFlights(s: System, c: nat, evicted: set<string>, f: nat)
    requires Inv(s) && c < |s.callers| && s.callers[c].Finishing? && s.callers[c].left != []
    requires f < |s.owner| && f !in Finished(s, c, evicted).ended
    ensures FlightLed(Finished(s, c, evicted), f)
  {
    hide OutcomeFor, LeadsTrue, FlightLed;
    assert FlightLed(s, f);
    FlightStaysLed(s, c, evicted, f);
  }

  lemma FinishKeeps(s: System, c: nat, evicted: set<string>)
    requires Inv(s) && c < |s.callers| && s.callers[c].Finishing? && s.callers[c].left != []
    ensures Inv(Finished(s, c, evicted))
  {
    hide LeadsTrue, FlightLed, OutcomeFor, Shape;
    var t := Finished(s, c, evicted);
    FinishedShape(s, c, evicted);
    assert |t.keyOf| == |t.owner| by { ShapeLengths(t); }
    forall d | 0 <= d < |t.callers|
      ensures LeadsTrue(t, d)
    {
      FinishLeads(s, c, evicted, d);
    }
    forall f: nat | f < |t.owner| && f !in t.ended
      ensures FlightLed(t, f)
    {
      FinishFlights(s, c, evicted, f);
    }
  }

  lemma ShapeLengths(s: System)
    requires Shape(s)
    ensures |s.keyOf| == |s.owner|
  {
  }

  lemma FinishedShape(s: System, c: nat, evicted: set<string>)
    requires Inv(s) && c < |s.callers| && s.callers[c].Finishing? && s.callers[c].left != []
    ensures Shape(Finished(s, c, evicted))
  {
    var p, t := s.callers[c], Finished(s, c, evicted);
    var lead := p.left[0];
    assert LeadsTrue(s, c) && p.left == Unfinished(s.callers[c]);
    assert FlightLed(s, lead.flight);
    forall d, f | 0 <= d < |t.callers| && f in Followed(t.callers[d])
      ensures f < |t.owner|
    {
      assert f in Followed(s.callers[d]);
    }
  }

  lemma WaitKeeps(s: System, c: nat, cancelled: bool)
    requires Inv(s) && c < |s.callers| && s.callers[c].Waiting?
    ensures Inv(Waited(s, c, cancelled))
  {
    hide Inv, LeadsTrue;
    var p, t := s.callers[c], Waited(s, c, cancelled);
    FollowedTrue(s, c);
    var rest := if p.followers == [] then [] else p.followers[1..];
    assert forall f :: f in rest ==> f in p.followers;
    assert Followed(t.callers[c]) == [] || Followed(t.callers[c]) == p.followers || Followed(t.callers[c]) == rest;
    QuietKeeps(s, t, c, t.callers[c]);
  }

  lemma FollowedTrue(s: System, c: nat)
    requires Inv(s) && c < |s.callers|
    ensures !s.callers[c].Returned? ==> forall f :: f in s.callers[c].followers ==> f < |s.owner|
    ensures s.callers == s.callers[c := s.callers[c]]
    ensures Shape(s)
  {
    assert !s.callers[c].Returned? ==> s.callers[c].followers == Followed(s.callers[c]);
  }

  lemma AskedKeeps(s: System, c: nat, cooled: bool)
    requires Inv(s) && c < |s.callers| && s.callers[c].Claiming? && s.callers[c].todo == []
    ensures Inv(Asked(s, c, cooled))
  {
    hide Inv, LeadsTrue, Admitted;
    FollowedTrue(s, c);
    QuietKeeps(s, Asked(s, c, cooled), c, Asked(s, c, cooled).callers[c]);
  }

  lemma AnsweringKeeps(s: System, c: nat, answer: Answer, threshold: nat)
    requires Inv(s) && c < |s.callers| && s.callers[c].InBackend?
    ensures Inv(Answering(s, c, answer, threshold))
  {
    hide Inv, LeadsTrue;
    FollowedTrue(s, c);
    QuietKeeps(s, Answering(s, c, answer, threshold), c, Answering(s, c, answer, threshold).callers[c]);
  }

  lemma RecordedKeeps(s: System, c: nat)
    requires Inv(s) && c < |s.callers| && s.callers[c].Finishing? && s.callers[c].left == []
    ensures Inv(Recorded(s, c))
  {
    hide Inv, LeadsTrue;
    FollowedTrue(s, c);
    QuietKeeps(s, Recorded(s, c), c, Recorded(s, c).callers[c]);
  }

  lemma MoveKeeps(s: System, move: Move, threshold: nat)
    requires Inv(s)
    ensures Inv(Moved(s, move, threshold))
  {
    hide Inv, Claimed, Finished, Waited, Asked, Answering, Recorded;
    match move
    case Claim(c, spoiled) => if c < |s.callers| && s.callers[c].Claiming? && s.callers[c].todo != [] { ClaimKeeps(s, c, spoiled); }
    case Finish(c, evicted) => if c < |s.callers| && s.callers[c].Finishing? && s.callers[c].left != [] { FinishKeeps(s, c, evicted); }
    case Wait(c, cancelled) => if c < |s.callers| && s.callers[c].Waiting? { WaitKeeps(s, c, cancelled); }
    case Allow(c, cooled) => if c < |s.callers| && s.callers[c].Claiming? && s.callers[c].todo == [] { AskedKeeps(s, c, cooled); }
    case Answered(c, answer) => if c < |s.callers| && s.callers[c].InBackend? { AnsweringKeeps(s, c, answer, threshold); }
    case Record(c) => if c < |s.callers| && s.callers[c].Finishing? && s.callers[c].left == [] { RecordedKeeps(s, c); }
  }

  // ---- what it means ----

  /** A caller that waits, or has returned, leads no flight that has not ended. */
  lemma WaitersLeadNothing(s: System, c: nat, f: nat)
    requires Inv(s) && c < |s.callers| && (s.callers[c].Waiting? || s.callers[c].Returned?)
    requires f < |s.owner| && s.owner[f] == c
    ensures f in s.ended
  {
    assert f in s.ended || FlightLed(s, f);
  }

  /** A flight is ended once, by its leader, with the leader's own answer for that key; what has ended
      stays as it is whatever anyone does. */
  lemma EndedOnce(s: System, move: Move, threshold: nat, f: nat)
    requires Inv(s)
    ensures f in s.ended ==> f in Moved(s, move, threshold).ended && Moved(s, move, threshold).ended[f] == s.ended[f]
    ensures f !in s.ended && f in Moved(s, move, threshold).ended ==>
              f < |s.owner| && move.Finish? && move.finisher == s.owner[f] && s.callers[s.owner[f]].Finishing?
              && Moved(s, move, threshold).ended[f] == OutcomeFor(s.callers[s.owner[f]].answer, s.keyOf[f])
  {
    hide Inv, OutcomeFor, Finished, Claimed, Waited, Asked, Answering, Recorded, AnswersAll;
    if move.Finish? {
      var c := move.finisher;
      if c < |s.callers| && s.callers[c].Finishing? && s.callers[c].left != [] { FinishEndsOne(s, c, move.evicted); }
    } else {
      KeysOnlyGrow(s, move, threshold);
    }
  }

  lemma FinishEndsOne(s: System, c: nat, evicted: set<string>)
    requires Inv(s) && c < |s.callers| && s.callers[c].Finishing? && s.callers[c].left != []
    ensures var lead := s.callers[c].left[0];
            && lead.flight < |s.owner| && s.owner[lead.flight] == c && |s.keyOf| == |s.owner| && lead.flight !in s.ended
            && Finished(s, c, evicted).ended == s.ended[lead.flight := OutcomeFor(s.callers[c].answer, s.keyOf[lead.flight])]
  {
    hide Shape, FlightLed, OutcomeFor;
    assert LeadsTrue(s, c) && s.callers[c].left == Unfinished(s.callers[c]);
  }

  predicate CanMove(s: System, c: nat)
    requires c < |s.callers|
  {
    match s.callers[c]
    case Waiting(followers) => followers == [] || followers[0] in s.ended
    case Returned(_) => false
    case _ => true
  }

  /** As long as some call has not returned, some call can go on: batches never wait for each other in a circle. */
  lemma NoDeadlock(s: System, c: nat) returns (d: nat)
    requires Inv(s) && c < |s.callers| && !s.callers[c].Returned?
    ensures d < |s.callers| && CanMove(s, d)
  {
    d := c;
    if !CanMove(s, c) {
      var f := s.callers[c].followers[0];
      assert f in Followed(s.callers[c]);
      assert FlightLed(s, f);
      d := s.owner[f];
    }
  }

  lemma AllReturned(s: System)
    requires Inv(s) && forall c :: 0 <= c < |s.callers| ==> s.callers[c].Returned?
    ensures s.flights == map[] && forall f: nat :: f < |s.owner| ==> f in s.ended
  {
    forall f: nat | f < |s.owner|
      ensures f in s.ended
    {
      assert f in s.ended || FlightLed(s, f);
    }
    assert forall k :: k !in s.flights;
  }

  // ---- each call comes to an end ----

  function Left(p: Caller): nat {
    match p
    case Claiming(todo, leaders, followers) => 4 * |todo| + 2 * |leaders| + |followers| + 5
    case InBackend(leaders, followers) => 2 * |leaders| + |followers| + 4
    case Finishing(left, _, followers) => |left| + |followers| + 3
    case Waiting(followers) => |followers| + 1
    case Returned(_) => 0
  }

  function TotalLeft(callers: seq<Caller>): nat {
    if callers == [] then 0 else Left(callers[0]) + TotalLeft(callers[1..])
  }

  lemma {:induction false} LessInTotal(callers: seq<Caller>, c: nat, p: Caller)
    requires c < |callers| && Left(p) < Left(callers[c])
    ensures TotalLeft(callers[c := p]) < TotalLeft(callers)
    decreases |callers|
  {
    hide Left;
    var t := callers[c := p];
    if c == 0 {
      assert t[1..] == callers[1..];
    } else {
      assert t[1..] == callers[1..][c - 1 := p];
      LessInTotal(callers[1..], c - 1, p);
    }
  }

  /** One caller moves on, and is nearer its end. */
  ghost predicate Nearer(s: System, t: System, c: nat) {
    c < |s.callers| && |t.callers| == |s.callers| && t.callers == s.callers[c := t.callers[c]] && Left(t.callers[c]) < Left(s.callers[c])
  }

  lemma ClaimedNearer(s: System, c: nat, spoiled: bool)
    requires c < |s.callers| && s.callers[c].Claiming? && s.callers[c].todo != []
    ensures Nearer(s, Claimed(s, c, spoiled), c)
  {
  }

  lemma AskedNearer(s: System, c: nat, cooled: bool)
    requires c < |s.callers| && s.callers[c].Claiming? && s.callers[c].todo == []
    ensures Nearer(s, Asked(s, c, cooled), c)
  {
    hide Admitted;
  }

  lemma FinishedNearer(s: System, c: nat, evicted: set<string>)
    requires c < |s.callers| && s.callers[c].Finishing? && s.callers[c].left != []
    ensures Nearer(s, Finished(s, c, evicted), c)
  {
    hide OutcomeFor;
  }

  lemma WaitedNearer(s: System, c: nat, cancelled: bool)
    requires c < |s.callers| && s.callers[c].Waiting?
    ensures Waited(s, c, cancelled) == s || Nearer(s, Waited(s, c, cancelled), c)
  {
  }

  /** Every move that changes anything brings the whole system closer to its end. */
  lemma MovesEnd(s: System, move: Move, threshold: nat)
    ensures Moved(s, move, threshold) == s || TotalLeft(Moved(s, move, threshold).callers) < TotalLeft(s.callers)
  {
    hide TotalLeft, AnswersAll, Claimed, Finished, Waited, Asked, Left;
    var t := Moved(s, move, threshold);
    var c := match move case Claim(c, _) => c case Allow(c, _) => c case Answered(c, _) => c case Finish(c, _) => c case Record(c) => c case Wait(c, _) => c;
    assert t == s || Nearer(s, t, c) by {
      match move
      case Claim(c, spoiled) => if c < |s.callers| && s.callers[c].Claiming? && s.callers[c].todo != [] { ClaimedNearer(s, c, spoiled); }
      case Allow(c, cooled) => if c < |s.callers| && s.callers[c].Claiming? && s.callers[c].todo == [] { AskedNearer(s, c, cooled); }
      case Finish(c, evicted) => if c < |s.callers| && s.callers[c].Finishing? && s.callers[c].left != [] { FinishedNearer(s, c, evicted); }
      case Wait(c, cancelled) => if c < |s.callers| && s.callers[c].Waiting? { WaitedNearer(s, c, cancelled); }
      case Answered(c, answer) => if c < |s.callers| && s.callers[c].InBackend? { AnsweringNearer(s, c, answer, threshold); }
      case Record(c) => if c < |s.callers| && s.callers[c].Finishing? && s.callers[c].left == [] { RecordedNearer(s, c); }
    }
    if t != s { LessInTotal(s.callers, c, t.callers[c]); }
  }

  lemma AnsweringNearer(s: System, c: nat, answer: Answer, threshold: nat)
    requires c < |s.callers| && s.callers[c].InBackend?
    ensures Nearer(s, Answering(s, c, answer, threshold), c)
  {
  }

  lemma RecordedNearer(s: System, c: nat)
    requires c < |s.callers| && s.callers[c].Finishing? && s.callers[c].left == []
    ensures Nearer(s, Recorded(s, c), c)
  {
  }

  // ---- the breaker over all runs ----

  /** The breaker is left alone, and every probing call is still probing. */
  ghost predicate BreakerSame(s: System, t: System) {
    t.breaker == s.breaker && |t.callers| == |s.callers|
    && forall c :: 0 <= c < |s.callers| ==> Probing(t.callers[c]) == Probing(s.callers[c])
  }

  lemma ClaimedBreaker(s: System, c: nat, spoiled: bool)
    requires c < |s.callers| && s.callers[c].Claiming? && s.callers[c].todo != []
    ensures BreakerSame(s, Claimed(s, c, spoiled))
  {
  }

  lemma FinishedBreaker(s: System, c: nat, evicted: set<string>)
    requires c < |s.callers| && s.callers[c].Finishing? && s.callers[c].left != []
    ensures BreakerSame(s, Finished(s, c, evicted))
  {
    hide OutcomeFor;
  }

  lemma WaitedBreaker(s: System, c: nat, cancelled: bool)
    requires c < |s.callers| && s.callers[c].Waiting?
    ensures BreakerSame(s, Waited(s, c, cancelled))
  {
  }

  lemma BreakerSameKeeps(s: System, t: System, threshold: nat)
    requires BreakerTrue(s, threshold) && BreakerSame(s, t)
    ensures BreakerTrue(t, threshold)
  {
    hide Probing;
  }

  lemma BreakerKeeps(s: System, move: Move, threshold: nat)
    requires BreakerTrue(s, threshold)
    ensures BreakerTrue(Moved(s, move, threshold), threshold)
  {
    hide AnswersAll, Claimed, Finished, Waited, Asked, Answering, Recorded, BreakerTrue, BreakerSame;
    match move
    case Claim(c, spoiled) =>
      if c < |s.callers| && s.callers[c].Claiming? && s.callers[c].todo != [] {
        ClaimedBreaker(s, c, spoiled);
        BreakerSameKeeps(s, Claimed(s, c, spoiled), threshold);
      }
    case Finish(c, evicted) =>
      if c < |s.callers| && s.callers[c].Finishing? && s.callers[c].left != [] {
        FinishedBreaker(s, c, evicted);
        BreakerSameKeeps(s, Finished(s, c, evicted), threshold);
      }
    case Wait(c, cancelled) =>
      if c < |s.callers| && s.callers[c].Waiting? {
        WaitedBreaker(s, c, cancelled);
        BreakerSameKeeps(s, Waited(s, c, cancelled), threshold);
      }
    case Allow(c, cooled) => if c < |s.callers| && s.callers[c].Claiming? && s.callers[c].todo == [] { AskedBreaker(s, c, cooled, threshold); }
    case Answered(c, answer) => if c < |s.callers| && s.callers[c].InBackend? { AnsweringBreaker(s, c, answer, threshold); }
    case Record(c) => if c < |s.callers| && s.callers[c].Finishing? && s.callers[c].left == [] { RecordedBreaker(s, c, threshold); }
  }

  lemma AskedBreaker(s: System, c: nat, cooled: bool, threshold: nat)
    requires BreakerTrue(s, threshold) && c < |s.callers| && s.callers[c].Claiming? && s.callers[c].todo == []
    ensures BreakerTrue(Asked(s, c, cooled), threshold)
  {
  }

  lemma AnsweringBreaker(s: System, c: nat, answer: Answer, threshold: nat)
    requires BreakerTrue(s, threshold) && c < |s.callers| && s.callers[c].InBackend?
    ensures BreakerTrue(Answering(s, c, answer, threshold), threshold)
  {
  }

  lemma RecordedBreaker(s: System, c: nat, threshold: nat)
    requires BreakerTrue(s, threshold) && c < |s.callers| && s.callers[c].Finishing? && s.callers[c].left == []
    ensures BreakerTrue(Recorded(s, c), threshold)
  {
  }

  lemma {:induction false} RunKeeps(s: System, moves: seq<Move>, threshold: nat)
    requires Inv(s) && BreakerTrue(s, threshold)
    ensures Inv(Run(s, moves, threshold)) && BreakerTrue(Run(s, moves, threshold), threshold)
    decreases |moves|
  {
    hide Inv, BreakerTrue, Moved;
    if moves != [] {
      MoveKeeps(s, moves[0], threshold);
      BreakerKeeps(s, moves[0], threshold);
      RunKeeps(Moved(s, moves[0], threshold), moves[1..], threshold);
    }
  }

  /** Whatever batches run together and however they interleave: someone can always go on, a waiter
      leads nothing unfinished, and every follower got exactly what its flight ended with. */
  lemma ConcurrentBatches(batches: seq<seq<string>>, stored: map<string, Embedding>, moves: seq<Move>, threshold: nat)
    ensures var s := Run(Begun(batches, stored), moves, threshold);
            && (forall c :: 0 <= c < |s.callers| && !s.callers[c].Returned? ==> exists d: nat :: d < |s.callers| && CanMove(s, d))
            && (forall c, f :: 0 <= c < |s.callers| && 0 <= f < |s.owner| && s.owner[f] == c && (s.callers[c].Waiting? || s.callers[c].Returned?) ==> f in s.ended)
            && (forall r :: r in s.received ==> r.1 in s.ended && s.ended[r.1] == r.2)
            && (s.breaker.probe ==> s.breaker.claimer < |s.callers| && Probing(s.callers[s.breaker.claimer]))
  {
    hide Run, CanMove, LeadsTrue, FlightLed, Probing;
    BegunInv(batches, stored, threshold);
    RunKeeps(Begun(batches, stored), moves, threshold);
    var s := Run(Begun(batches, stored), moves, threshold);
    forall c | 0 <= c < |s.callers| && !s.callers[c].Returned?
      ensures exists d: nat :: d < |s.callers| && CanMove(s, d)
    {
      var d := NoDeadlock(s, c);
    }
    forall c, f | 0 <= c < |s.callers| && 0 <= f < |s.owner| && s.owner[f] == c && (s.callers[c].Waiting? || s.callers[c].Returned?)
      ensures f in s.ended
    {
      WaitersLeadNothing(s, c, f);
    }
  }

  // ---- exactly when the backend may be asked ----

  /** How one move changes the count of failures since the last success that was recorded. */
  function Counted(s: System, move: Move, n: nat): nat {
    match move
    case Answered(c, Failure(_)) => if c < |s.callers| && s.callers[c].InBackend? then n + 1 else n
    case Record(c) =>
      if c < |s.callers| && s.callers[c].Finishing? && s.callers[c].left == [] && s.callers[c].answer.Vectors? then 0 else n
    case _ => n
  }

  function FailuresSince(s: System, moves: seq<Move>, threshold: nat, n: nat): nat
    decreases |moves|
  {
    if moves == [] then n else FailuresSince(Moved(s, moves[0], threshold), moves[1..], threshold, Counted(s, moves[0], n))
  }

  /** The circuit is closed exactly below the threshold, and half open exactly while a probe is out. */
  predicate CircuitTrue(b: Breaker, threshold: nat) {
    (b.circuit != Closed <==> b.failures >= threshold) && (b.probe <==> b.circuit == HalfOpen)
  }

  lemma CircuitKeeps(s: System, move: Move, threshold: nat)
    requires CircuitTrue(s.breaker, threshold) && threshold > 0
    ensures CircuitTrue(Moved(s, move, threshold).breaker, threshold)
    ensures Moved(s, move, threshold).breaker.failures == Counted(s, move, s.breaker.failures)
  {
    hide AnswersAll, Claimed, Finished, Waited, Asked, Answering, Recorded, CircuitTrue;
    match move
    case Claim(c, spoiled) => if c < |s.callers| && s.callers[c].Claiming? && s.callers[c].todo != [] { ClaimedBreaker(s, c, spoiled); }
    case Finish(c, evicted) => if c < |s.callers| && s.callers[c].Finishing? && s.callers[c].left != [] { FinishedBreaker(s, c, evicted); }
    case Wait(c, cancelled) => if c < |s.callers| && s.callers[c].Waiting? { WaitedBreaker(s, c, cancelled); }
    case Allow(c, cooled) => if c < |s.callers| && s.callers[c].Claiming? && s.callers[c].todo == [] { AskCircuit(s, c, cooled, threshold); }
    case Answered(c, answer) => if c < |s.callers| && s.callers[c].InBackend? { AnswerCircuit(s, c, answer, threshold); }
    case Record(c) => if c < |s.callers| && s.callers[c].Finishing? && s.callers[c].left == [] { RecordCircuit(s, c, threshold); }
  }

  lemma AskCircuit(s: System, c: nat, cooled: bool, threshold: nat)
    requires CircuitTrue(s.breaker, threshold) && c < |s.callers| && s.callers[c].Claiming? && s.callers[c].todo == []
    ensures CircuitTrue(Asked(s, c, cooled).breaker, threshold) && Asked(s, c, cooled).breaker.failures == s.breaker.failures
  {
  }

  lemma AnswerCircuit(s: System, c: nat, answer: Answer, threshold: nat)
    requires CircuitTrue(s.breaker, threshold) && c < |s.callers| && s.callers[c].InBackend?
    ensures var t := Answering(s, c, answer, threshold);
            CircuitTrue(t.breaker, threshold) && t.breaker.failures == s.breaker.failures + (if answer.Failure? then 1 else 0)
    ensures answer.Failure? ==> AnswersAll(answer, s.callers[c].leaders)
  {
  }

  lemma RecordCircuit(s: System, c: nat, threshold: nat)
    requires CircuitTrue(s.breaker, threshold) && threshold > 0
    requires c < |s.callers| && s.callers[c].Finishing? && s.callers[c].left == []
    ensures var t := Recorded(s, c);
            CircuitTrue(t.breaker, threshold) && t.breaker.failures == (if s.callers[c].answer.Vectors? then 0 else s.breaker.failures)
  {
  }

  lemma {:induction false} CircuitOverRuns(s: System, moves: seq<Move>, threshold: nat)
    requires CircuitTrue(s.breaker, threshold) && threshold > 0
    ensures CircuitTrue(Run(s, moves, threshold).breaker, threshold)
    ensures Run(s, moves, threshold).breaker.failures == FailuresSince(s, moves, threshold, s.breaker.failures)
    decreases |moves|
  {
    hide Moved, CircuitTrue, Counted;
    if moves != [] {
      CircuitKeeps(s, moves[0], threshold);
      CircuitOverRuns(Moved(s, moves[0], threshold), moves[1..], threshold);
    }
  }

  /** After any run: the breaker has counted exactly the failures since the last recorded success; and a
      call that leads a flight and asks is let into the backend exactly when these are fewer than the
      threshold, or the cooldown is over and no probe is out, in which case it becomes the probe.  Any
      other such call goes on to finish its flights with an error. */
  lemma BackendAskedExactly(batches: seq<seq<string>>, stored: map<string, Embedding>, moves: seq<Move>, threshold: nat, c: nat, cooled: bool)
    requires threshold > 0
    requires var s := Run(Begun(batches, stored), moves, threshold);
             c < |s.callers| && s.callers[c].Claiming? && s.callers[c].todo == [] && s.callers[c].leaders != []
    ensures var s := Run(Begun(batches, stored), moves, threshold); var t := Moved(s, Allow(c, cooled), threshold);
            && s.breaker.failures == FailuresSince(Begun(batches, stored), moves, threshold, 0)
            && (t.callers[c].InBackend? <==> s.breaker.failures < threshold || (cooled && !s.breaker.probe))
            && (t.callers[c].InBackend? && s.breaker.failures >= threshold ==> t.breaker.probe && t.breaker.claimer == c)
            && (!t.callers[c].InBackend? ==> t.callers[c].Finishing? && t.callers[c].left == s.callers[c].leaders && t.callers[c].answer.Failure?)
  {
    hide Run, FailuresSince;
    var start := Begun(batches, stored);
    assert CircuitTrue(start.breaker, threshold);
    CircuitOverRuns(start, moves, threshold);
  }

  // ---- what the cache holds ----

  /** Everything stored was there from the start or is what a flight of that key ended with. */
  ghost predicate StoredTrue(s: System, stored: map<string, Embedding>) {
    forall k :: k in s.stored ==>
      (k in stored && s.stored[k] == stored[k])
      || exists f :: f in s.ended && f < |s.keyOf| && s.keyOf[f] == k && s.ended[f] == Good(s.stored[k])
  }

  /** A flight that has not ended yet ends only once: what it ended with is not overwritten. */
  lemma StoredKeeps(s: System, move: Move, threshold: nat, stored: map<string, Embedding>)
    requires Inv(s) && StoredTrue(s, stored)
    ensures StoredTrue(Moved(s, move, threshold), stored)
  {
    hide OutcomeFor, Shape, FlightLed, Inv;
    var t := Moved(s, move, threshold);
    match move
    case Finish(c, evicted) =>
      if c < |s.callers| && s.callers[c].Finishing? && s.callers[c].left != [] { FinishStores(s, c, evicted, stored); }
    case _ => KeysOnlyGrow(s, move, threshold);
  }

  lemma KeysOnlyGrow(s: System, move: Move, threshold: nat)
    requires !move.Finish?
    ensures var t := Moved(s, move, threshold); s.keyOf <= t.keyOf && t.ended == s.ended && t.stored == s.stored
  {
    hide AnswersAll, Claimed, Waited, Asked, Answering, Recorded;
    match move
    case Claim(c, spoiled) => if c < |s.callers| && s.callers[c].Claiming? && s.callers[c].todo != [] { ClaimOnlyAdds(s, c, spoiled); }
    case Allow(c, cooled) => if c < |s.callers| && s.callers[c].Claiming? && s.callers[c].todo == [] { AskOnlyMoves(s, c, cooled); }
    case Answered(c, answer) => if c < |s.callers| && s.callers[c].InBackend? { AnswerOnlyMoves(s, c, answer, threshold); }
    case Record(c) => if c < |s.callers| && s.callers[c].Finishing? && s.callers[c].left == [] { RecordOnlyMoves(s, c); }
    case Wait(c, cancelled) => if c < |s.callers| && s.callers[c].Waiting? { WaitOnlyReceives(s, c, cancelled); }
  }

  lemma ClaimOnlyAdds(s: System, c: nat, spoiled: bool)
    requires c < |s.callers| && s.callers[c].Claiming? && s.callers[c].todo != []
    ensures var t := Claimed(s, c, spoiled); s.keyOf <= t.keyOf && t.ended == s.ended && t.stored == s.stored
  {
  }

  lemma AskOnlyMoves(s: System, c: nat, cooled: bool)
    requires c < |s.callers| && s.callers[c].Claiming? && s.callers[c].todo == []
    ensures var t := Asked(s, c, cooled); t == s.(callers := t.callers, breaker := t.breaker)
  {
  }

  lemma AnswerOnlyMoves(s: System, c: nat, answer: Answer, threshold: nat)
    requires c < |s.callers| && s.callers[c].InBackend?
    ensures var t := Answering(s, c, answer, threshold); t == s.(callers := t.callers, breaker := t.breaker)
  {
  }

  lemma RecordOnlyMoves(s: System, c: nat)
    requires c < |s.callers| && s.callers[c].Finishing? && s.callers[c].left == []
    ensures var t := Recorded(s, c); t == s.(callers := t.callers, breaker := t.breaker)
  {
  }

  lemma WaitOnlyReceives(s: System, c: nat, cancelled: bool)
    requires c < |s.callers| && s.callers[c].Waiting?
    ensures var t := Waited(s, c, cancelled); t == s.(callers := t.callers, received := t.received, got := t.got)
  {
  }

  lemma FinishStores(s: System, c: nat, evicted: set<string>, stored: map<string, Embedding>)
    requires Inv(s) && StoredTrue(s, stored) && c < |s.callers| && s.callers[c].Finishing? && s.callers[c].left != []
    ensures StoredTrue(Finished(s, c, evicted), stored)
  {
    hide OutcomeFor, Shape, FlightLed, Unfinished;
    var t, lead := Finished(s, c, evicted), s.callers[c].left[0];
    LeadIsOpen(s, c);
    forall k | k in t.stored
      ensures (k in stored && t.stored[k] == stored[k])
              || exists f :: f in t.ended && f < |t.keyOf| && t.keyOf[f] == k && t.ended[f] == Good(t.stored[k])
    {
      if k == lead.key && t.ended[lead.flight].Good? {
        assert t.keyOf[lead.flight] == k && t.ended[lead.flight] == Good(t.stored[k]);
      } else if !(k in stored && s.stored[k] == stored[k]) {
        var f :| f in s.ended && f < |s.keyOf| && s.keyOf[f] == k && s.ended[f] == Good(s.stored[k]);
        assert f != lead.flight && t.ended[f] == s.ended[f];
      }
    }
  }

  lemma LeadIsOpen(s: System, c: nat)
    requires Inv(s) && c < |s.callers| && s.callers[c].Finishing? && s.callers[c].left != []
    ensures var lead := s.callers[c].left[0];
            lead.flight < |s.keyOf| && s.keyOf[lead.flight] == lead.key && lead.flight !in s.ended
  {
    hide Shape, FlightLed;
    assert LeadsTrue(s, c);
    assert Unfinished(s.callers[c]) == s.callers[c].left;
  }

  /** A flight that ends with a vector leaves it in the cache unless it is evicted at once, and one that
      ends with an error leaves the cache alone. */
  lemma FinishedIsStored(s: System, c: nat, evicted: set<string>)
    requires Inv(s) && c < |s.callers| && s.callers[c].Finishing? && s.callers[c].left != []
    ensures var t, lead := Moved(s, Finish(c, evicted), 1), s.callers[c].left[0];
            && lead.flight in t.ended
            && (match s.callers[c].answer
                case Failure(error) => t.ended[lead.flight] == Bad(error) && t.stored == s.stored
                case Vectors(byKey) =>
                  && (lead.key in byKey ==> t.ended[lead.flight] == Good(byKey[lead.key]))
                  && (lead.key in byKey && lead.key !in evicted ==> lead.key in t.stored && t.stored[lead.key] == byKey[lead.key]))
  {
    hide Inv;
  }

  lemma {:induction false} StoredOverRuns(s: System, moves: seq<Move>, threshold: nat, stored: map<string, Embedding>)
    requires Inv(s) && StoredTrue(s, stored)
    ensures StoredTrue(Run(s, moves, threshold), stored)
    decreases |moves|
  {
    hide Inv, StoredTrue, Moved;
    if moves != [] {
      MoveKeeps(s, moves[0], threshold);
      StoredKeeps(s, moves[0], threshold, stored);
      StoredOverRuns(Moved(s, moves[0], threshold), moves[1..], threshold, stored);
    }
  }

  /** In every interleaving the cache holds only what was there or what a flight of that key ended with. */
  lemma CacheIsTrue(batches: seq<seq<string>>, stored: map<string, Embedding>, moves: seq<Move>, threshold: nat)
    ensures StoredTrue(Run(Begun(batches, stored), moves, threshold), stored)
  {
    hide Run;
    BegunInv(batches, stored, threshold);
    StoredOverRuns(Begun(batches, stored), moves, threshold, stored);
  }

  // ---- what a batch comes back with ----

  function LeadKeys(leads: seq<Lead>): set<string> {
    set i | 0 <= i < |leads| :: leads[i].key
  }

  function FlightKeys(keyOf: seq<string>, flights: seq<nat>): set<string> {
    set i | 0 <= i < |flights| && flights[i] < |keyOf| :: keyOf[flights[i]]
  }

  function KeySet(keys: seq<string>): set<string> {
    set i | 0 <= i < |keys| :: keys[i]
  }

  /** The keys a caller has still to get, as long as it may succeed. */
  function Pending(s: System, p: Caller): set<string> {
    match p
    case Claiming(todo, leaders, followers) => KeySet(todo) + LeadKeys(leaders) + FlightKeys(s.keyOf, followers)
    case InBackend(leaders, followers) => LeadKeys(leaders) + FlightKeys(s.keyOf, followers)
    case Finishing(left, _, followers) => LeadKeys(left) + FlightKeys(s.keyOf, followers)
    case Waiting(followers) => FlightKeys(s.keyOf, followers)
    case Returned(_) => {}
  }

  /** It can only fail from here. */
  predicate Failing(p: Caller) {
    (p.Finishing? && p.answer.Failure?) || (p.Returned? && p.error != None)
  }

  /** A caller has got, or has still to get, exactly the keys it asked for. */
  ghost predicate Accounted(s: System, c: nat, batch: seq<string>) {
    && c < |s.callers| && c < |s.got|
    && (!Failing(s.callers[c]) ==> s.got[c].Keys + Pending(s, s.callers[c]) == KeySet(batch))
    && (s.callers[c].Finishing? && s.callers[c].answer.Vectors? ==> LeadKeys(s.callers[c].left) <= s.callers[c].answer.byKey.Keys)
    && forall f :: f in Followed(s.callers[c]) ==> f < |s.keyOf|
  }

  lemma KeysOfTail<T>(a: seq<T>)
    requires a != []
    ensures forall x :: x in a <==> x == a[0] || x in a[1..]
  {
    assert a == [a[0]] + a[1..];
  }

  lemma KeySetTail(keys: seq<string>)
    requires keys != []
    ensures KeySet(keys) == {keys[0]} + KeySet(keys[1..])
  {
    forall k ensures k in KeySet(keys) <==> k == keys[0] || k in KeySet(keys[1..]) {
      if k in KeySet(keys[1..]) { var i :| 0 <= i < |keys[1..]| && keys[1..][i] == k; assert keys[i + 1] == k; }
      if k in KeySet(keys) && k != keys[0] { var i :| 0 <= i < |keys| && keys[i] == k; assert keys[1..][i - 1] == k; }
    }
  }

  lemma LeadKeysTail(leads: seq<Lead>)
    requires leads != []
    ensures LeadKeys(leads) == {leads[0].key} + LeadKeys(leads[1..])
  {
    forall k ensures k in LeadKeys(leads) <==> k == leads[0].key || k in LeadKeys(leads[1..]) {
      if k in LeadKeys(leads[1..]) { var i :| 0 <= i < |leads[1..]| && leads[1..][i].key == k; assert leads[i + 1].key == k; }
      if k in LeadKeys(leads) && k != leads[0].key { var i :| 0 <= i < |leads| && leads[i].key == k; assert leads[1..][i - 1].key == k; }
    }
  }

  lemma LeadKeysSnoc(leads: seq<Lead>, lead: Lead)
    ensures LeadKeys(leads + [lead]) == LeadKeys(leads) + {lead.key}
  {
    var more := leads + [lead];
    assert more[|leads|] == lead;
    forall i | 0 <= i < |leads| ensures leads[i].key in LeadKeys(more) { assert more[i] == leads[i]; }
  }

  lemma FlightKeysTail(keyOf: seq<string>, flights: seq<nat>)
    requires flights != [] && flights[0] < |keyOf|
    ensures FlightKeys(keyOf, flights) == {keyOf[flights[0]]} + FlightKeys(keyOf, flights[1..])
  {
    forall k ensures k in FlightKeys(keyOf, flights) <==> k == keyOf[flights[0]] || k in FlightKeys(keyOf, flights[1..]) {
      if k in FlightKeys(keyOf, flights[1..]) {
        var i :| 0 <= i < |flights[1..]| && flights[1..][i] < |keyOf| && keyOf[flights[1..][i]] == k;
        assert flights[i + 1] == flights[1..][i];
      }
      if k in FlightKeys(keyOf, flights) && k != keyOf[flights[0]] {
        var i :| 0 <= i < |flights| && flights[i] < |keyOf| && keyOf[flights[i]] == k;
        assert flights[1..][i - 1] == flights[i];
      }
    }
  }

  lemma FlightKeysSnoc(keyOf: seq<string>, flights: seq<nat>, f: nat)
    requires f < |keyOf|
    ensures FlightKeys(keyOf, flights + [f]) == FlightKeys(keyOf, flights) + {keyOf[f]}
  {
    var more := flights + [f];
    assert more[|flights|] == f;
    forall i | 0 <= i < |flights| && flights[i] < |keyOf| ensures keyOf[flights[i]] in FlightKeys(keyOf, more) { assert more[i] == flights[i]; }
  }

  /** More flights being begun changes no key of those that were. */
  lemma FlightKeysGrow(a: seq<string>, b: seq<string>, flights: seq<nat>)
    requires a <= b && forall f :: f in flights ==> f < |a|
    ensures FlightKeys(a, flights) == FlightKeys(b, flights)
  {
    forall i | 0 <= i < |flights| ensures flights[i] < |a| && a[flights[i]] == b[flights[i]] { assert flights[i] in flights; }
  }

  lemma PendingGrows(s: System, t: System, p: Caller)
    requires s.keyOf <= t.keyOf && forall f :: f in Followed(p) ==> f < |s.keyOf|
    ensures Pending(s, p) == Pending(t, p)
  {
    hide FlightKeys, KeySet, LeadKeys;
    FlightKeysGrow(s.keyOf, t.keyOf, Followed(p));
  }

  lemma OthersAccounted(s: System, t: System, c: nat, d: nat, batch: seq<string>)
    requires Accounted(s, d, batch) && c != d && s.keyOf <= t.keyOf && |t.callers| == |s.callers| && |t.got| == |s.got|
    requires t.callers[d] == s.callers[d] && t.got[d] == s.got[d]
    ensures Accounted(t, d, batch)
  {
    hide Pending;
    PendingGrows(s, t, s.callers[d]);
  }

  lemma ClaimAccounted(s: System, c: nat, spoiled: bool, batch: seq<string>)
    requires Inv(s) && Accounted(s, c, batch) && s.callers[c].Claiming? && s.callers[c].todo != []
    ensures Accounted(Claimed(s, c, spoiled), c, batch)
  {
    hide FlightKeys, KeySet, LeadKeys, LeadsTrue, FlightLed;
    var p, t := s.callers[c], Claimed(s, c, spoiled);
    assert Followed(p) == p.followers && Followed(t.callers[c]) == t.callers[c].followers;
    KeySetTail(p.todo);
    FlightKeysGrow(s.keyOf, t.keyOf, p.followers);
    var key := p.todo[0];
    if key in s.flights && key !in s.stored { FlightKeysSnoc(s.keyOf, p.followers, s.flights[key]); }
    LeadKeysSnoc(p.leaders, Lead(key, |s.owner|));
  }

  lemma FinishAccounted(s: System, c: nat, evicted: set<string>, batch: seq<string>)
    requires Accounted(s, c, batch) && s.callers[c].Finishing? && s.callers[c].left != []
    ensures Accounted(Finished(s, c, evicted), c, batch)
  {
    hide FlightKeys, KeySet, LeadKeys;
    var p, t := s.callers[c], Finished(s, c, evicted);
    assert Followed(p) == p.followers && Followed(t.callers[c]) == p.followers;
    LeadKeysTail(p.left);
    if p.answer.Vectors? {
      assert p.left[0].key in p.answer.byKey;
      assert t.got[c] == s.got[c][p.left[0].key := p.answer.byKey[p.left[0].key]];
    }
  }

  lemma WaitAccounted(s: System, c: nat, cancelled: bool, batch: seq<string>)
    requires Accounted(s, c, batch) && s.callers[c].Waiting?
    ensures Accounted(Waited(s, c, cancelled), c, batch)
  {
    hide FlightKeys, KeySet;
    var p := s.callers[c];
    if p.followers != [] {
      assert p.followers[0] in Followed(p);
      FlightKeysTail(s.keyOf, p.followers);
      KeysOfTail(p.followers);
    } else {
      NoFlightKeys(s.keyOf);
    }
  }

  lemma NoFlightKeys(keyOf: seq<string>)
    ensures FlightKeys(keyOf, []) == {} && LeadKeys([]) == {} && KeySet([]) == {}
  {
  }

  lemma AskAccounted(s: System, c: nat, cooled: bool, batch: seq<string>)
    requires Accounted(s, c, batch) && s.callers[c].Claiming? && s.callers[c].todo == []
    ensures Accounted(Asked(s, c, cooled), c, batch)
  {
    hide FlightKeys, KeySet, LeadKeys, Admitted;
    NoFlightKeys(s.keyOf);
    var p, t := s.callers[c], Asked(s, c, cooled);
    assert Followed(p) == p.followers && (Followed(t.callers[c]) == p.followers || Followed(t.callers[c]) == []);
  }

  lemma AnswerAccounted(s: System, c: nat, answer: Answer, threshold: nat, batch: seq<string>)
    requires Accounted(s, c, batch) && s.callers[c].InBackend? && AnswersAll(answer, s.callers[c].leaders)
    ensures Accounted(Answering(s, c, answer, threshold), c, batch)
  {
    hide FlightKeys, KeySet, FailedOnce;
    var p, t := s.callers[c], Answering(s, c, answer, threshold);
    assert Followed(p) == p.followers && (Followed(t.callers[c]) == p.followers || Followed(t.callers[c]) == []);
  }

  lemma RecordAccounted(s: System, c: nat, batch: seq<string>)
    requires Accounted(s, c, batch) && s.callers[c].Finishing? && s.callers[c].left == []
    ensures Accounted(Recorded(s, c), c, batch)
  {
    hide FlightKeys, KeySet, LeadKeys;
    NoFlightKeys(s.keyOf);
    var p, t := s.callers[c], Recorded(s, c);
    assert Followed(p) == p.followers && (Followed(t.callers[c]) == p.followers || Followed(t.callers[c]) == []);
  }

  /** One move leaves every caller accounted for. */
  lemma MoveAccounts(s: System, move: Move, threshold: nat, batches: seq<seq<string>>)
    requires Inv(s) && |s.callers| == |s.got| == |batches|
    requires forall c :: 0 <= c < |batches| ==> Accounted(s, c, batches[c])
    ensures var t := Moved(s, move, threshold);
            && |t.callers| == |t.got| == |batches|
            && forall c :: 0 <= c < |batches| ==> Accounted(t, c, batches[c])
  {
    hide Inv, Accounted, AnswersAll, Claimed, Finished, Waited, Asked, Answering, Recorded;
    var t := Moved(s, move, threshold);
    var c := match move case Claim(c, _) => c case Allow(c, _) => c case Answered(c, _) => c case Finish(c, _) => c case Record(c) => c case Wait(c, _) => c;
    OnlyOneMoves(s, move, threshold, c);
    if c < |batches| { MoverAccounts(s, move, threshold, c, batches[c]); }
    forall d | 0 <= d < |batches|
      ensures Accounted(t, d, batches[d])
    {
      if d != c { OthersAccounted(s, t, c, d, batches[d]); }
    }
  }

  ghost predicate OneMoved(s: System, t: System, c: nat) {
    && |t.callers| == |s.callers| && |t.got| == |s.got| && s.keyOf <= t.keyOf
    && (forall d :: 0 <= d < |s.callers| && d != c ==> t.callers[d] == s.callers[d])
    && (forall d :: 0 <= d < |s.got| && d != c ==> t.got[d] == s.got[d])
  }

  lemma OnlyOneMoves(s: System, move: Move, threshold: nat, c: nat)
    requires c == match move case Claim(c, _) => c case Allow(c, _) => c case Answered(c, _) => c case Finish(c, _) => c case Record(c) => c case Wait(c, _) => c
    ensures OneMoved(s, Moved(s, move, threshold), c)
  {
    hide AnswersAll, Claimed, Finished, Waited, Asked, Answering, Recorded;
    match move
    case Claim(_, spoiled) => if c < |s.callers| && s.callers[c].Claiming? && s.callers[c].todo != [] { ClaimMovesOne(s, c, spoiled); }
    case Finish(_, evicted) => if c < |s.callers| && s.callers[c].Finishing? && s.callers[c].left != [] { FinishMovesOne(s, c, evicted); }
    case Wait(_, cancelled) => if c < |s.callers| && s.callers[c].Waiting? { WaitMovesOne(s, c, cancelled); }
    case Allow(_, cooled) => if c < |s.callers| && s.callers[c].Claiming? && s.callers[c].todo == [] { AskMovesOne(s, c, cooled); }
    case Answered(_, answer) => if c < |s.callers| && s.callers[c].InBackend? { AnswerMovesOne(s, c, answer, threshold); }
    case Record(_) => if c < |s.callers| && s.callers[c].Finishing? && s.callers[c].left == [] { RecordMovesOne(s, c); }
  }

  lemma ClaimMovesOne(s: System, c: nat, spoiled: bool)
    requires c < |s.callers| && s.callers[c].Claiming? && s.callers[c].todo != []
    ensures OneMoved(s, Claimed(s, c, spoiled), c)
  {
  }

  lemma FinishMovesOne(s: System, c: nat, evicted: set<string>)
    requires c < |s.callers| && s.callers[c].Finishing? && s.callers[c].left != []
    ensures OneMoved(s, Finished(s, c, evicted), c)
  {
    hide OutcomeFor;
  }

  lemma WaitMovesOne(s: System, c: nat, cancelled: bool)
    requires c < |s.callers| && s.callers[c].Waiting?
    ensures OneMoved(s, Waited(s, c, cancelled), c)
  {
  }

  lemma AskMovesOne(s: System, c: nat, cooled: bool)
    requires c < |s.callers| && s.callers[c].Claiming? && s.callers[c].todo == []
    ensures OneMoved(s, Asked(s, c, cooled), c) && Asked(s, c, cooled).got == s.got
  {
    hide Admitted;
  }

  lemma AnswerMovesOne(s: System, c: nat, answer: Answer, threshold: nat)
    requires c < |s.callers| && s.callers[c].InBackend?
    ensures OneMoved(s, Answering(s, c, answer, threshold), c) && Answering(s, c, answer, threshold).got == s.got
  {
    hide FailedOnce;
  }

  lemma RecordMovesOne(s: System, c: nat)
    requires c < |s.callers| && s.callers[c].Finishing? && s.callers[c].left == []
    ensures OneMoved(s, Recorded(s, c), c) && Recorded(s, c).got == s.got
  {
  }

  lemma MoverAccounts(s: System, move: Move, threshold: nat, c: nat, batch: seq<string>)
    requires Inv(s) && c < |s.callers| && Accounted(s, c, batch)
    requires c == match move case Claim(c, _) => c case Allow(c, _) => c case Answered(c, _) => c case Finish(c, _) => c case Record(c) => c case Wait(c, _) => c
    ensures Accounted(Moved(s, move, threshold), c, batch)
  {
    hide Inv, Accounted, AnswersAll, Claimed, Finished, Waited, Asked, Answering, Recorded;
    match move
    case Claim(_, spoiled) => if s.callers[c].Claiming? && s.callers[c].todo != [] { ClaimAccounted(s, c, spoiled, batch); }
    case Finish(_, evicted) => if s.callers[c].Finishing? && s.callers[c].left != [] { FinishAccounted(s, c, evicted, batch); }
    case Wait(_, cancelled) => if s.callers[c].Waiting? { WaitAccounted(s, c, cancelled, batch); }
    case Allow(_, cooled) => if s.callers[c].Claiming? && s.callers[c].todo == [] { AskAccounted(s, c, cooled, batch); }
    case Answered(_, answer) =>
      if s.callers[c].InBackend? && AnswersAll(answer, s.callers[c].leaders) { AnswerAccounted(s, c, answer, threshold, batch); }
    case Record(_) => if s.callers[c].Finishing? && s.callers[c].left == [] { RecordAccounted(s, c, batch); }
  }

  lemma {:induction false} AccountedOverRuns(s: System, moves: seq<Move>, threshold: nat, batches: seq<seq<string>>)
    requires Inv(s) && |s.callers| == |s.got| == |batches|
    requires forall c :: 0 <= c < |batches| ==> Accounted(s, c, batches[c])
    ensures var t := Run(s, moves, threshold);
            && |t.callers| == |t.got| == |batches|
            && forall c :: 0 <= c < |batches| ==> Accounted(t, c, batches[c])
    decreases |moves|
  {
    hide Inv, Accounted, Moved;
    if moves != [] {
      MoveKeeps(s, moves[0], threshold);
      MoveAccounts(s, moves[0], threshold, batches);
      AccountedOverRuns(Moved(s, moves[0], threshold), moves[1..], threshold, batches);
    }
  }

  lemma BegunAccounted(batches: seq<seq<string>>, stored: map<string, Embedding>)
    ensures var s := Begun(batches, stored);
            |s.callers| == |s.got| == |batches| && forall c :: 0 <= c < |batches| ==> Accounted(s, c, batches[c])
  {
    hide KeySet;
    var s := Begun(batches, stored);
    forall c | 0 <= c < |batches| ensures Accounted(s, c, batches[c]) {
      NoFlightKeys(s.keyOf);
      assert s.callers[c] == Claiming(batches[c], [], []);
      assert Followed(s.callers[c]) == [];
    }
  }

  /** Whatever a caller has got was in the cache from the start or is what a flight of that key ended with. */
  ghost predicate GotTrue(s: System, stored: map<string, Embedding>) {
    forall c, k :: 0 <= c < |s.got| && k in s.got[c] ==> FromFlight(s, stored, k, s.got[c][k])
  }

  ghost predicate FromFlight(s: System, stored: map<string, Embedding>, k: string, e: Embedding) {
    (k in stored && e == stored[k]) || exists f :: f in s.ended && f < |s.keyOf| && s.keyOf[f] == k && s.ended[f] == Good(e)
  }

  lemma FlightStays(s: System, t: System, stored: map<string, Embedding>, k: string, e: Embedding)
    requires FromFlight(s, stored, k, e) && s.keyOf <= t.keyOf
    requires forall f :: f in s.ended ==> f in t.ended && t.ended[f] == s.ended[f]
    ensures FromFlight(t, stored, k, e)
  {
    if !(k in stored && e == stored[k]) {
      var f :| f in s.ended && f < |s.keyOf| && s.keyOf[f] == k && s.ended[f] == Good(e);
      assert f in t.ended && t.keyOf[f] == k;
    }
  }

  /** What a move adds to what a caller has got: a cached vector, the leader's own answer as its flight
      ends with it, or what the flight it followed ended with. */
  lemma MoveGives(s: System, move: Move, threshold: nat, stored: map<string, Embedding>, c: nat, k: string)
    requires Inv(s) && StoredTrue(s, stored) && GotTrue(s, stored) && |s.got| == |s.callers|
    requires c < |Moved(s, move, threshold).got| && k in Moved(s, move, threshold).got[c]
    ensures FromFlight(Moved(s, move, threshold), stored, k, Moved(s, move, threshold).got[c][k])
  {
    hide Inv, Moved;
    var t := Moved(s, move, threshold);
    forall f | f in s.ended ensures f in t.ended && t.ended[f] == s.ended[f] { EndedOnce(s, move, threshold, f); }
    var mover := match move case Claim(c, _) => c case Allow(c, _) => c case Answered(c, _) => c case Finish(c, _) => c case Record(c) => c case Wait(c, _) => c;
    OnlyOneMoves(s, move, threshold, mover);
    GivesOne(s, move, threshold, c, k);
    assert GivenFrom(s, t, c, k);
    if k in s.got[c] && t.got[c][k] == s.got[c][k] {
      FlightStays(s, t, stored, k, s.got[c][k]);
    } else if k in s.stored && t.got[c][k] == s.stored[k] {
      StoredIsFromFlight(s, stored, k);
      FlightStays(s, t, stored, k, s.stored[k]);
    }
  }

  lemma StoredIsFromFlight(s: System, stored: map<string, Embedding>, k: string)
    requires StoredTrue(s, stored) && k in s.stored
    ensures FromFlight(s, stored, k, s.stored[k])
  {
  }

  /** The vector stands where it stood, was in the cache, or is what a flight of its key has ended with. */
  ghost predicate GivenFrom(s: System, t: System, c: nat, k: string)
    requires c < |t.got| && k in t.got[c]
  {
    || (c < |s.got| && k in s.got[c] && t.got[c][k] == s.got[c][k])
    || (k in s.stored && t.got[c][k] == s.stored[k])
    || (exists f :: f in t.ended && f < |t.keyOf| && t.keyOf[f] == k && t.ended[f] == Good(t.got[c][k]))
  }

  lemma GivesOne(s: System, move: Move, threshold: nat, c: nat, k: string)
    requires Inv(s) && |s.got| == |s.callers| && c < |s.got|
    requires c < |Moved(s, move, threshold).got| && k in Moved(s, move, threshold).got[c]
    ensures GivenFrom(s, Moved(s, move, threshold), c, k)
  {
    hide Inv, AnswersAll, Claimed, Finished, Waited, Asked, Answering, Recorded, GivenFrom;
    var t := Moved(s, move, threshold);
    if t.got[c] == s.got[c] {
      SameGiven(s, t, c, k);
    } else {
      match move
      case Claim(d, spoiled) => if d < |s.callers| && s.callers[d].Claiming? && s.callers[d].todo != [] { ClaimGives(s, d, spoiled, c, k); }
      case Finish(d, evicted) => if d < |s.callers| && s.callers[d].Finishing? && s.callers[d].left != [] { FinishGives(s, d, evicted, c, k); }
      case Wait(d, cancelled) => if d < |s.callers| && s.callers[d].Waiting? { WaitGives(s, d, cancelled, c, k); }
      case Allow(d, cooled) => if d < |s.callers| && s.callers[d].Claiming? && s.callers[d].todo == [] { AskMovesOne(s, d, cooled); }
      case Answered(d, answer) => if d < |s.callers| && s.callers[d].InBackend? { AnswerMovesOne(s, d, answer, threshold); }
      case Record(d) => if d < |s.callers| && s.callers[d].Finishing? && s.callers[d].left == [] { RecordMovesOne(s, d); }
    }
  }

  lemma SameGiven(s: System, t: System, c: nat, k: string)
    requires c < |s.got| && c < |t.got| && t.got[c] == s.got[c] && k in t.got[c]
    ensures GivenFrom(s, t, c, k)
  {
  }

  lemma ClaimGives(s: System, d: nat, spoiled: bool, c: nat, k: string)
    requires d < |s.callers| && s.callers[d].Claiming? && s.callers[d].todo != []
    requires c < |Claimed(s, d, spoiled).got| && k in Claimed(s, d, spoiled).got[c]
    ensures GivenFrom(s, Claimed(s, d, spoiled), c, k)
  {
  }

  lemma FinishGives(s: System, d: nat, evicted: set<string>, c: nat, k: string)
    requires Inv(s) && d < |s.callers| && s.callers[d].Finishing? && s.callers[d].left != []
    requires c < |Finished(s, d, evicted).got| && k in Finished(s, d, evicted).got[c]
    ensures GivenFrom(s, Finished(s, d, evicted), c, k)
  {
    hide Inv, OutcomeFor;
    LeadIsOpen(s, d);
    var t := Finished(s, d, evicted);
    assert t.keyOf[s.callers[d].left[0].flight] == s.callers[d].left[0].key;
    assert s.callers[d].left[0].flight in t.ended;
  }

  lemma WaitGives(s: System, d: nat, cancelled: bool, c: nat, k: string)
    requires d < |s.callers| && s.callers[d].Waiting?
    requires c < |Waited(s, d, cancelled).got| && k in Waited(s, d, cancelled).got[c]
    ensures GivenFrom(s, Waited(s, d, cancelled), c, k)
  {
    var t, followers := Waited(s, d, cancelled), s.callers[d].followers;
    if followers != [] && followers[0] in s.ended && followers[0] < |s.keyOf| { assert t.keyOf[followers[0]] == s.keyOf[followers[0]]; }
  }

  lemma {:induction false} GotOverRuns(s: System, moves: seq<Move>, threshold: nat, stored: map<string, Embedding>)
    requires Inv(s) && StoredTrue(s, stored) && GotTrue(s, stored) && |s.got| == |s.callers|
    ensures GotTrue(Run(s, moves, threshold), stored)
    decreases |moves|
  {
    hide Inv, StoredTrue, Moved, FromFlight;
    if moves != [] {
      var t := Moved(s, moves[0], threshold);
      MoveKeeps(s, moves[0], threshold);
      StoredKeeps(s, moves[0], threshold, stored);
      var mover := match moves[0] case Claim(c, _) => c case Allow(c, _) => c case Answered(c, _) => c case Finish(c, _) => c case Record(c) => c case Wait(c, _) => c;
      OnlyOneMoves(s, moves[0], threshold, mover);
      forall c, k | 0 <= c < |t.got| && k in t.got[c] ensures FromFlight(t, stored, k, t.got[c][k]) { MoveGives(s, moves[0], threshold, stored, c, k); }
      GotOverRuns(t, moves[1..], threshold, stored);
    }
  }

  /** Whatever batches run together and however they interleave: a call that returns without an error has
      a vector for exactly the keys it asked for, and each is one that was cached from the start or the one
      a flight of that key ended with. */
  lemma BatchesAreServed(batches: seq<seq<string>>, stored: map<string, Embedding>, moves: seq<Move>, threshold: nat)
    ensures var s := Run(Begun(batches, stored), moves, threshold);
            && |s.callers| == |s.got| == |batches|
            && (forall c :: 0 <= c < |batches| && s.callers[c] == Returned(None) ==> s.got[c].Keys == set k | k in batches[c])
            && (forall c, k :: 0 <= c < |batches| && k in s.got[c] ==>
                  || (k in stored && s.got[c][k] == stored[k])
                  || (exists f :: f in s.ended && f < |s.keyOf| && s.keyOf[f] == k && s.ended[f] == Good(s.got[c][k])))
  {
    hide Run, Accounted;
    var start, s := Begun(batches, stored), Run(Begun(batches, stored), moves, threshold);
    BegunInv(batches, stored, threshold);
    BegunAccounted(batches, stored);
    AccountedOverRuns(start, moves, threshold, batches);
    GotOverRuns(start, moves, threshold, stored);
    forall c | 0 <= c < |batches| && s.callers[c] == Returned(None) ensures s.got[c].Keys == set k | k in batches[c] { ReturnedHasAll(s, c, batches[c]); }
  }

  lemma ReturnedHasAll(s: System, c: nat, batch: seq<string>)
    requires Accounted(s, c, batch) && s.callers[c] == Returned(None)
    ensures s.got[c].Keys == set k | k in batch
  {
    assert KeySet(batch) == set k | k in batch;
  }

  /** How a call ends: without an error only when it waits for nothing more, otherwise with the error of
      the very flight it waited for, of its own backend call, or because it gave up waiting; and it takes
      note of what it received.  A cached vector that does not validate is never handed out. */
  lemma ReturnLaw(s: System, threshold: nat, c: nat, cancelled: bool)
    requires Inv(s) && c < |s.callers|
    ensures s.callers[c].Waiting? && s.callers[c].followers == [] ==>
              Moved(s, Wait(c, cancelled), threshold).callers[c] == Returned(None)
    ensures s.callers[c].Waiting? && s.callers[c].followers != [] && cancelled ==>
              Moved(s, Wait(c, cancelled), threshold).callers[c] == Returned(Some("cancelled"))
    ensures s.callers[c].Waiting? && s.callers[c].followers != [] && !cancelled && s.callers[c].followers[0] in s.ended ==>
              var f, t := s.callers[c].followers[0], Moved(s, Wait(c, cancelled), threshold);
              && (c, f, s.ended[f]) in t.received
              && (s.ended[f].Bad? ==> t.callers[c] == Returned(Some(s.ended[f].error)) && t.got == s.got)
              && (s.ended[f].Good? ==> t.callers[c] == Waiting(s.callers[c].followers[1..]))
    ensures s.callers[c].Finishing? && s.callers[c].left == [] && s.callers[c].answer.Failure? ==>
              Moved(s, Record(c), threshold).callers[c] == Returned(Some(s.callers[c].answer.error))
    ensures s.callers[c].Claiming? && s.callers[c].todo != [] && s.callers[c].todo[0] in s.stored ==>
              var t := Moved(s, Claim(c, true), threshold);
              t.callers[c].Finishing? && t.callers[c].answer.Failure? && t.callers[c].left == s.callers[c].leaders && t.got == s.got
  {
    hide Inv;
  }
}
