/** The append path and the index worker, step by step. */
module Maintenance {
  import opened IndexStore

  // Each step is one locked section, one index transaction or one channel operation, and they
  // interleave in any order.

  // ---- what the two share ----

  /** The session when the worker was started had base events; units holds the numbers of queued events. */
  datatype Shared = Shared(
    ledger: seq<Unit>, base: nat, queue: seq<nat>, needsRepair: bool, reconciling: bool, errored: bool,
    token: bool, closed: bool, table: Table, watermark: nat)

  /** The append path: idle, with an event stored but not posted, or posted with the wake to send. */
  datatype Appender = Ready | Stored | Posted

  /** What follows the repair request of a failed pass: nothing, or recording the error and then
      sleeping or trying again. */
  datatype Afterwards = GoOn | Retry | Park

  datatype Worker =
    | Asleep
    | Looking
    | Settling
    | Repairing
    | Cleared
    | MarkRead(from: nat)
    | Replaying(next: nat, target: nat)
    | Caught
    | Measured(mark: nat)
    | Failing(park: bool)
    | Failed(after: Afterwards)
    | Recording(parking: bool)
    | Holding(unit: nat)
    | Advanced(done: nat)
    | Stopped

  datatype System = System(shared: Shared, appender: Appender, worker: Worker)

  datatype Move =
    | Store(unit: Unit)
    | Post(compiled: bool)
    | Wake
    | Receive
    | Look
    | Settle
    | BeginRepair
    | ReadMark(unreadable: bool)
    | List(unlisted: bool)
    | ReplayNext(failed: bool)
    | ReadCaught(unread: bool)
    | Trim
    | ClearReconciling
    | MarkRepair
    | RecordError
    | ApplyHead(rejected: bool)
    | Pop
    | Close
    | Stop

  // ---- the locked sections ----

  /** Post: the compiled event is queued; a full queue or a failed compilation asks for a repair instead. */
  function Posting(s: Shared, compiled: bool, depth: nat): Shared {
    if !compiled || |s.queue| >= depth then s.(needsRepair := true) else s.(queue := s.queue + [|s.ledger|])
  }

  function Beginning(s: Shared): Shared {
    s.(needsRepair := false, reconciling := true)
  }

  function Newer(queue: seq<nat>, mark: nat): seq<nat> {
    if queue == [] then [] else (if queue[0] > mark then [queue[0]] else []) + Newer(queue[1..], mark)
  }

  function Trimmed(s: Shared, mark: nat): Shared {
    s.(queue := Newer(s.queue, mark), reconciling := false)
  }

  function Popped(s: Shared, unit: nat): Shared {
    if s.queue != [] && s.queue[0] == unit then s.(queue := s.queue[1..]) else s
  }

  /** The index transaction for one event. */
  function Indexed(s: Shared, n: nat): Shared
    requires 0 < n <= |s.ledger|
  {
    s.(table := AppliedUnit(s.table, s.ledger[n - 1]), watermark := if n > s.watermark then n else s.watermark)
  }

  predicate Applies(s: Shared, n: nat, rejected: bool) {
    !s.closed && !rejected && 0 < n <= |s.ledger| && n <= s.watermark + 1
  }

  // ---- one move; a move that is not possible changes nothing ----

  function Moved(m: System, move: Move, depth: nat): System {
    var s := m.shared;
    match move
    case Store(unit) =>
      if m.appender == Ready && CompiledAt(unit, |s.ledger| + 1) then m.(shared := s.(ledger := s.ledger + [unit]), appender := Stored) else m
    case Post(compiled) =>
      if m.appender == Stored then m.(shared := Posting(s, compiled, depth), appender := Posted) else m
    case Wake =>
      if m.appender == Posted then m.(shared := s.(token := true), appender := Ready) else m
    case Receive =>
      if m.worker == Asleep && s.token then m.(shared := s.(token := false), worker := Looking) else m
    case Look =>
      if m.worker == Looking then
        m.(worker := if s.needsRepair then Repairing else if s.queue != [] then Holding(s.queue[0]) else Settling)
      else m
    case Settle =>
      if m.worker == Settling then m.(shared := s.(errored := false), worker := Asleep) else m
    case BeginRepair =>
      if m.worker == Repairing then m.(shared := Beginning(s), worker := Cleared) else m
    case ReadMark(unreadable) =>
      if m.worker == Cleared then
        m.(worker := if s.closed || unreadable then Failing(s.closed) else MarkRead(s.watermark))
      else m
    case List(unlisted) =>
      if m.worker.MarkRead? then m.(worker := if unlisted then Failing(false) else Replaying(m.worker.from + 1, |s.ledger|)) else m
    case ReplayNext(failed) =>
      if m.worker.Replaying? then
        var n := m.worker.next;
        if n > m.worker.target then m.(worker := Caught)
        else if Applies(s, n, failed) then m.(shared := Indexed(s, n), worker := Replaying(n + 1, m.worker.target))
        else m.(worker := Failing(s.closed))
      else m
    case ReadCaught(unread) =>
      if m.worker == Caught then m.(worker := if s.closed || unread then Failing(s.closed) else Measured(s.watermark)) else m
    case Trim =>
      if m.worker.Measured? then m.(shared := Trimmed(s, m.worker.mark), worker := Looking) else m
    case ClearReconciling =>
      if m.worker.Failing? then m.(shared := s.(reconciling := false), worker := Failed(if m.worker.park then Park else Retry)) else m
    case MarkRepair =>
      if m.worker.Failed? then
        m.(shared := s.(needsRepair := true), worker := if m.worker.after == GoOn then Looking else Recording(m.worker.after == Park))
      else m
    case RecordError =>
      if m.worker.Recording? then m.(shared := s.(errored := true), worker := if m.worker.parking then Asleep else Looking) else m
    case ApplyHead(rejected) =>
      if m.worker.Holding? then
        var n := m.worker.unit;
        if Applies(s, n, rejected) then m.(shared := Indexed(s, n), worker := Advanced(n))
        else m.(worker := if s.closed then Recording(true) else Failed(if rejected then Retry else GoOn))
      else m
    case Pop =>
      if m.worker.Advanced? then m.(shared := Popped(s, m.worker.done), worker := Looking) else m
    case Close => m.(shared := s.(closed := true))
    case Stop => m.(worker := Stopped)
  }

  function Run(m: System, moves: seq<Move>, depth: nat): System
    decreases |moves|
  {
    if moves == [] then m else Run(Moved(m, moves[0], depth), moves[1..], depth)
  }

  /** A session as it is opened: some ledger, an index that covers a part of it, nothing queued. */
  function Opened(ledger: seq<Unit>, watermark: nat): System
    requires watermark <= |ledger|
  {
    System(Shared(ledger, |ledger|, [], false, false, false, false, false, Folded(ledger, watermark), watermark), Ready, Asleep)
  }

  // ---- the invariant ----

  /** The events whose post has happened. */
  function PostedCount(m: System): int {
    if m.appender == Stored then |m.shared.ledger| - 1 else |m.shared.ledger|
  }

  predicate Increasing(queue: seq<nat>) {
    forall i, j :: 0 <= i < j < |queue| ==> queue[i] < queue[j]
  }

  ghost predicate IndexTrue(s: Shared) {
    && WellCompiled(s.ledger)
    && s.watermark <= |s.ledger| && s.base <= |s.ledger|
    && s.table == Folded(s.ledger, s.watermark)
  }

  ghost predicate QueueTrue(m: System) {
    && Increasing(m.shared.queue)
    && (forall n :: n in m.shared.queue ==> 0 < n <= PostedCount(m))
    && (m.appender == Stored ==> m.shared.base < |m.shared.ledger|)
  }

  /** Every posted event after the given one is queued, unless a repair is asked for. */
  ghost predicate Covered(m: System, from: nat) {
    m.shared.needsRepair
    || forall n: nat :: from < n <= PostedCount(m) && n > m.shared.base ==> n in m.shared.queue
  }

  ghost predicate WorkerTrue(m: System) {
    var s := m.shared;
    match m.worker
    case Cleared => true
    case MarkRead(from) => from <= s.watermark
    case Replaying(next, target) => 0 < next <= s.watermark + 1 && target <= |s.ledger| && Covered(m, target) && s.watermark <= |s.ledger|
    case Measured(mark) => mark == s.watermark && Covered(m, s.watermark)
    case Failing(park) => park ==> s.closed
    case Failed(after) => after == Park ==> s.closed
    case Recording(parking) => (parking ==> s.closed) && Covered(m, s.watermark)
    case Holding(unit) => Covered(m, s.watermark) && s.queue != [] && s.queue[0] == unit
    case Advanced(done) => Covered(m, s.watermark) && done <= s.watermark
    case Stopped => true
    case _ => Covered(m, s.watermark)
  }

  /** Work left for a worker about to sleep has a wake on its way; one that sleeps on work without a
      wake was parked by a closed index, and its error is on record. */
  predicate WakeTrue(m: System) {
    var s := m.shared; var waiting := (s.needsRepair || s.queue != []) && !s.token && m.appender != Posted;
    && (m.worker == Settling ==> !waiting)
    && (m.worker == Asleep && waiting ==> s.closed && s.errored)
  }

  /** The worker is between announcing a repair and announcing its end. */
  predicate Rebuilding(w: Worker) {
    w == Cleared || w.MarkRead? || w.Replaying? || w == Caught || w.Measured? || w.Failing?
  }

  predicate ReconcilingTrue(m: System) {
    m.worker != Stopped ==> (m.shared.reconciling <==> Rebuilding(m.worker))
  }

  ghost predicate Inv(m: System) {
    IndexTrue(m.shared) && QueueTrue(m) && WorkerTrue(m) && WakeTrue(m) && ReconcilingTrue(m)
  }

  lemma OpenedInv(ledger: seq<Unit>, watermark: nat)
    requires watermark <= |ledger| && WellCompiled(ledger)
    ensures Inv(Opened(ledger, watermark))
  {
    hide WellCompiled, Folded;
  }

  // ---- parts of the steps ----

  lemma IndexedIsTrue(s: Shared, n: nat)
    requires IndexTrue(s) && 0 < n <= |s.ledger| && n <= s.watermark + 1
    ensures IndexTrue(Indexed(s, n))
  {
    hide WellCompiled, AppliedUnit;
    if n <= s.watermark { ReapplyingIsNothing(s.ledger, s.watermark, n); }
  }

  lemma StoredIsTrue(s: Shared, unit: Unit)
    requires IndexTrue(s) && CompiledAt(unit, |s.ledger| + 1)
    ensures IndexTrue(s.(ledger := s.ledger + [unit]))
  {
    hide CompiledAt;
    FoldedOfLonger(s.ledger, [unit], s.watermark);
  }

  lemma {:induction false} NewerKeeps(queue: seq<nat>, mark: nat)
    requires Increasing(queue)
    ensures forall n :: n in Newer(queue, mark) <==> n in queue && n > mark
    ensures Increasing(Newer(queue, mark))
  {
    if queue != [] {
      NewerKeeps(queue[1..], mark);
      assert queue == [queue[0]] + queue[1..];
      var rest := Newer(queue[1..], mark);
      forall i | 0 <= i < |rest|
        ensures queue[0] < rest[i]
      {
        assert rest[i] in queue[1..];
        var j :| 0 <= j < |queue| - 1 && queue[1..][j] == rest[i];
        assert queue[j + 1] == rest[i];
      }
    }
  }

  lemma StoreKeeps(m: System, unit: Unit, depth: nat)
    requires Inv(m)
    ensures Inv(Moved(m, Store(unit), depth))
  {
    hide IndexTrue, Increasing, CompiledAt;
    assert m.shared.base <= |m.shared.ledger| && m.shared.watermark <= |m.shared.ledger| by { IndexTrueParts(m.shared); }
    if m.appender == Ready && CompiledAt(unit, |m.shared.ledger| + 1) { StoredIsTrue(m.shared, unit); }
  }

  lemma IndexTrueParts(s: Shared)
    requires IndexTrue(s)
    ensures s.base <= |s.ledger| && s.watermark <= |s.ledger|
  {
  }

  lemma PostKeeps(m: System, compiled: bool, depth: nat)
    requires Inv(m)
    ensures Inv(Moved(m, Post(compiled), depth))
  {
    hide WellCompiled, Folded;
    var s := m.shared;
    if m.appender == Stored && compiled && |s.queue| < depth {
      var t := Posting(s, compiled, depth);
      assert forall n :: n in t.queue <==> n in s.queue || n == |s.ledger|;
      assert Increasing(t.queue) by {
        forall i | 0 <= i < |s.queue|
          ensures s.queue[i] < |s.ledger|
        {
          assert s.queue[i] in s.queue;
        }
      }
    }
  }

  lemma TrimKeeps(m: System, depth: nat)
    requires Inv(m)
    ensures Inv(Moved(m, Trim, depth))
  {
    hide WellCompiled, Folded, Increasing;
    if m.worker.Measured? { NewerKeeps(m.shared.queue, m.worker.mark); }
  }

  lemma PopKeeps(m: System, depth: nat)
    requires Inv(m)
    ensures Inv(Moved(m, Pop, depth))
  {
    hide IndexTrue, Increasing;
    if m.worker.Advanced? && m.shared.queue != [] {
      TailOfQueue(m.shared.queue);
      QueueAside(m.shared, m.shared.queue[1..]);
    }
  }

  lemma QueueAside(s: Shared, queue: seq<nat>)
    requires IndexTrue(s)
    ensures IndexTrue(s.(queue := queue))
  {
  }

  lemma TailOfQueue(queue: seq<nat>)
    requires Increasing(queue) && queue != []
    ensures Increasing(queue[1..]) && forall n :: n in queue <==> n == queue[0] || n in queue[1..]
  {
    assert queue == [queue[0]] + queue[1..];
  }

  lemma ReplayKeeps(m: System, failed: bool, depth: nat)
    requires Inv(m)
    ensures Inv(Moved(m, ReplayNext(failed), depth))
  {
    hide IndexTrue, Increasing;
    IndexTrueParts(m.shared);
    if m.worker.Replaying? && m.worker.next <= m.worker.target && Applies(m.shared, m.worker.next, failed) {
      IndexedIsTrue(m.shared, m.worker.next);
      IndexTrueParts(Indexed(m.shared, m.worker.next));
    }
  }

  lemma ApplyKeeps(m: System, rejected: bool, depth: nat)
    requires Inv(m)
    ensures Inv(Moved(m, ApplyHead(rejected), depth))
  {
    hide IndexTrue, Increasing;
    IndexTrueParts(m.shared);
    if m.worker.Holding? && Applies(m.shared, m.worker.unit, rejected) { IndexedIsTrue(m.shared, m.worker.unit); }
  }

  /** Every move of either side, in any state that can be, with any failure, keeps the invariant. */
  lemma MoveKeeps(m: System, move: Move, depth: nat)
    requires Inv(m)
    ensures Inv(Moved(m, move, depth))
  {
    match move
    case Store(unit) => StoreKeeps(m, unit, depth);
    case Post(compiled) => PostKeeps(m, compiled, depth);
    case Trim => TrimKeeps(m, depth);
    case Pop => PopKeeps(m, depth);
    case ReplayNext(failed) => ReplayKeeps(m, failed, depth);
    case ApplyHead(rejected) => ApplyKeeps(m, rejected, depth);
    case _ => QuietKeeps(m, move, depth);
  }

  /** The moves that touch neither the index nor the contents of the queue. */
  lemma QuietKeeps(m: System, move: Move, depth: nat)
    requires Inv(m)
    requires !move.Store? && !move.Post? && !move.Trim? && !move.Pop? && !move.ReplayNext? && !move.ApplyHead?
    ensures Inv(Moved(m, move, depth))
  {
    hide WellCompiled, Folded, Increasing;
  }

  // ---- over all runs ----

  lemma {:induction false} RunKeeps(m: System, moves: seq<Move>, depth: nat)
    requires Inv(m)
    ensures Inv(Run(m, moves, depth))
    decreases |moves|
  {
    hide Inv, Moved;
    if moves != [] {
      MoveKeeps(m, moves[0], depth);
      RunKeeps(Moved(m, moves[0], depth), moves[1..], depth);
    }
  }

  /** A worker asleep with nothing on the way either has everything in the index, or the index is closed
      and the error that parked it shows. */
  lemma SleepsOnlyWhenDone(ledger: seq<Unit>, watermark: nat, moves: seq<Move>, depth: nat)
    requires watermark <= |ledger| && WellCompiled(ledger)
    ensures var m := Run(Opened(ledger, watermark), moves, depth); var s := m.shared;
            m.worker == Asleep && !s.token && m.appender == Ready ==>
              || (s.queue == [] && !s.needsRepair && (|s.ledger| > s.base ==> s.watermark == |s.ledger|))
              || (s.closed && s.errored)
  {
    hide Run, WellCompiled, Folded, Increasing;
    OpenedInv(ledger, watermark);
    RunKeeps(Opened(ledger, watermark), moves, depth);
    var m := Run(Opened(ledger, watermark), moves, depth);
    assert |m.shared.ledger| in m.shared.queue || |m.shared.ledger| <= m.shared.watermark
           || !Covered(m, m.shared.watermark) || m.shared.needsRepair || m.appender != Ready || |m.shared.ledger| <= m.shared.base;
  }

  lemma NewerIsNoLonger(queue: seq<nat>, mark: nat)
    ensures |Newer(queue, mark)| <= |queue|
  {
  }

  /** The queue never holds more units than it was made for. */
  lemma {:induction false} QueueIsBounded(m: System, moves: seq<Move>, depth: nat)
    requires |m.shared.queue| <= depth
    ensures |Run(m, moves, depth).shared.queue| <= depth
    decreases |moves|
  {
    hide Moved;
    if moves != [] {
      OneMoveIsBounded(m, moves[0], depth);
      QueueIsBounded(Moved(m, moves[0], depth), moves[1..], depth);
    }
  }

  lemma OneMoveIsBounded(m: System, move: Move, depth: nat)
    requires |m.shared.queue| <= depth
    ensures |Moved(m, move, depth).shared.queue| <= depth
  {
    hide Newer, AppliedUnit;
    if m.worker.Measured? { NewerIsNoLonger(m.shared.queue, m.worker.mark); }
  }

  /** A pass that fails for any reason but a gap ends with its error on record, and with a repair asked
      for unless it was the closed index that refused a queued unit. */
  lemma FailedPassLaw(m: System, depth: nat)
    ensures m.worker.Recording? ==> Moved(m, RecordError, depth).shared.errored
    ensures m.worker.Failing? ==>
              var t := Run(m, [ClearReconciling, MarkRepair, RecordError], depth);
              t.shared.errored && t.shared.needsRepair && !t.shared.reconciling && t.worker == if m.worker.park then Asleep else Looking
    ensures m.worker.Holding? && !m.shared.closed ==>
              var t := Run(m, [ApplyHead(true), MarkRepair, RecordError], depth);
              t.shared.errored && t.shared.needsRepair && t.worker == Looking && t.shared.watermark == m.shared.watermark
    ensures m.worker.Holding? && !m.shared.closed && 0 < m.worker.unit && m.worker.unit > m.shared.watermark + 1 ==>
              var t := Run(m, [ApplyHead(false), MarkRepair], depth);
              t.shared == m.shared.(needsRepair := true) && t.worker == Looking
    ensures m.worker.Holding? && m.shared.closed ==>
              var t := Run(m, [ApplyHead(false), RecordError], depth);
              t.shared == m.shared.(errored := true) && t.worker == Asleep
  {
    hide Run, Indexed;
    RunThree(m, ClearReconciling, MarkRepair, RecordError, depth);
    RunThree(m, ApplyHead(true), MarkRepair, RecordError, depth);
    RunTwo(m, ApplyHead(false), MarkRepair, depth);
    RunTwo(m, ApplyHead(false), RecordError, depth);
  }

  /** A pass over a closed index fails at its first and its last look at it, and one that finds nothing
      left to do clears the error. */
  lemma PassEndLaw(m: System, depth: nat)
    ensures m.worker == Cleared && m.shared.closed ==> forall u :: Moved(m, ReadMark(u), depth) == m.(worker := Failing(true))
    ensures m.worker == Caught && m.shared.closed ==> forall u :: Moved(m, ReadCaught(u), depth) == m.(worker := Failing(true))
    ensures m.worker == Settling ==> Moved(m, Settle, depth) == m.(shared := m.shared.(errored := false), worker := Asleep)
  {
  }

  /** A closed index is not written any more. */
  lemma ClosedIsFrozen(m: System, move: Move, depth: nat)
    requires m.shared.closed
    ensures var t := Moved(m, move, depth).shared; t.closed && t.table == m.shared.table && t.watermark == m.shared.watermark
  {
    hide AppliedUnit, Newer;
  }

  lemma RunTwo(m: System, a: Move, b: Move, depth: nat)
    ensures Run(m, [a, b], depth) == Moved(Moved(m, a, depth), b, depth)
  {
    hide Moved;
    assert [a, b][1..] == [b] && [b][1..] == [];
    assert Run(Moved(Moved(m, a, depth), b, depth), [], depth) == Moved(Moved(m, a, depth), b, depth);
  }

  lemma RunThree(m: System, a: Move, b: Move, c: Move, depth: nat)
    ensures Run(m, [a, b, c], depth) == Moved(Moved(Moved(m, a, depth), b, depth), c, depth)
  {
    hide Moved;
    assert [a, b, c][1..] == [b, c];
    RunTwo(Moved(m, a, depth), b, c, depth);
    assert Run(m, [a, b, c], depth) == Run(Moved(m, a, depth), [b, c], depth);
  }

  /** In every interleaving: the index is the fold of the ledger up to its watermark, so no event is
      ever skipped; and once the worker sleeps, no wake is pending, no append is under way and the
      index is not closed, every event appended since the session was opened is in it. */
  lemma NothingIsStranded(ledger: seq<Unit>, watermark: nat, moves: seq<Move>, depth: nat)
    requires watermark <= |ledger| && WellCompiled(ledger)
    ensures var m := Run(Opened(ledger, watermark), moves, depth); var s := m.shared;
            && s.watermark <= |s.ledger| && s.table == Folded(s.ledger, s.watermark)
            && (m.worker == Asleep && !s.token && m.appender == Ready && !s.closed ==>
                  s.queue == [] && !s.needsRepair && (|s.ledger| > s.base ==> s.watermark == |s.ledger|))
  {
    hide Run, WellCompiled, Folded, Increasing;
    OpenedInv(ledger, watermark);
    RunKeeps(Opened(ledger, watermark), moves, depth);
    var m := Run(Opened(ledger, watermark), moves, depth);
    if m.worker == Asleep && !m.shared.token && m.appender == Ready && !m.shared.closed && |m.shared.ledger| > m.shared.base {
      assert |m.shared.ledger| in m.shared.queue || |m.shared.ledger| <= m.shared.watermark;
    }
  }

  // ---- what the status shows ----

  /** What the status reports as degraded: an error on record, a repair asked for or in flight. */
  predicate Degraded(s: Shared) {
    s.errored || s.needsRepair || s.reconciling
  }

  /** Not degraded, and nothing pending either: the index reads as caught up. */
  predicate ReadsCaughtUp(s: Shared) {
    !Degraded(s) && s.queue == []
  }

  /** Some event appended since the session was opened is not in the index. */
  predicate Behind(s: Shared) {
    s.watermark < |s.ledger| && s.base < |s.ledger|
  }

  /** The only event missing is stored and not yet posted. */
  predicate MissesOnlyUnposted(m: System) {
    m.appender == Stored && |m.shared.ledger| - 1 <= if m.shared.watermark > m.shared.base then m.shared.watermark else m.shared.base
  }

  /** In every reachable state whose index is behind, the status reads caught up exactly when nothing is
      queued, no repair is asked for, no error is on record, and either the worker stands between the
      two locked sections that end a failed pass, or all that is missing is an event not yet posted
      while no rebuild is in flight. */
  lemma BehindHidesExactly(ledger: seq<Unit>, watermark: nat, moves: seq<Move>, depth: nat)
    requires watermark <= |ledger| && WellCompiled(ledger)
    ensures var m := Run(Opened(ledger, watermark), moves, depth); var s := m.shared;
            Behind(s) && m.worker != Stopped ==>
              (ReadsCaughtUp(s) <==>
               && s.queue == [] && !s.needsRepair && !s.errored
               && (m.worker.Failed? || (MissesOnlyUnposted(m) && !Rebuilding(m.worker))))
  {
    hide Run, WellCompiled, Folded, Increasing;
    OpenedInv(ledger, watermark);
    RunKeeps(Opened(ledger, watermark), moves, depth);
    var m := Run(Opened(ledger, watermark), moves, depth);
    if Behind(m.shared) && m.worker != Stopped { HidesExactly(m); }
  }

  lemma HidesExactly(m: System)
    requires Inv(m) && Behind(m.shared) && m.worker != Stopped
    ensures ReadsCaughtUp(m.shared) <==>
            && m.shared.queue == [] && !m.shared.needsRepair && !m.shared.errored
            && (m.worker.Failed? || (MissesOnlyUnposted(m) && !Rebuilding(m.worker)))
  {
    hide WellCompiled, Folded, Increasing;
    var s, n := m.shared, PostedCount(m);
    assert Covered(m, s.watermark) && !s.needsRepair && s.watermark < n && s.base < n ==> n in s.queue;
  }

  /** The index may be behind in a posted event with nothing to show for it only between the two locked
      sections that end a failed pass. */
  lemma BehindShows(ledger: seq<Unit>, watermark: nat, moves: seq<Move>, depth: nat)
    requires watermark <= |ledger| && WellCompiled(ledger)
    ensures var m := Run(Opened(ledger, watermark), moves, depth); var s := m.shared;
            (m.worker != Stopped && s.watermark < PostedCount(m) && s.base < PostedCount(m)
             && s.queue == [] && !s.needsRepair && !s.reconciling) ==> m.worker.Failed?
  {
    hide Run, WellCompiled, Folded, Increasing;
    OpenedInv(ledger, watermark);
    RunKeeps(Opened(ledger, watermark), moves, depth);
    var m := Run(Opened(ledger, watermark), moves, depth);
    var n := PostedCount(m);
    assert Covered(m, m.shared.watermark) && !m.shared.needsRepair && m.shared.watermark < n && m.shared.base < n ==> n in m.shared.queue;
  }

  /** An error on record shows until the worker finds nothing left to do: a retry hides nothing. */
  lemma {:induction false} ErrorShows(m: System, moves: seq<Move>, depth: nat)
    requires m.shared.errored && Settle !in moves
    ensures Degraded(Run(m, moves, depth).shared)
    decreases |moves|
  {
    hide Posting, Trimmed, Popped, Indexed, Applies;
    if moves != [] {
      assert moves[0] in moves && moves[0] != Settle;
      ErrorStays(m, moves[0], depth);
      assert Settle !in moves[1..];
      ErrorShows(Moved(m, moves[0], depth), moves[1..], depth);
    }
  }

  lemma ErrorStays(m: System, move: Move, depth: nat)
    requires m.shared.errored && move != Settle
    ensures Moved(m, move, depth).shared.errored
  {
  }

  lemma {:induction false} RunTake(m: System, moves: seq<Move>, k: nat, depth: nat)
    requires k < |moves|
    ensures Run(m, moves[..k + 1], depth) == Moved(Run(m, moves[..k], depth), moves[k], depth)
    decreases |moves|
  {
    hide Moved;
    if k == 0 {
      assert moves[..1][1..] == [] && moves[..0] == [];
    } else {
      assert moves[..k + 1][1..] == moves[1..][..k] && moves[..k][1..] == moves[1..][..k - 1];
      RunTake(Moved(m, moves[0], depth), moves[1..], k - 1, depth);
    }
  }

  const FailedRepair: seq<Move> := [Post(false), Wake, Receive, Look, BeginRepair, ReadMark(true), ClearReconciling]

  /** And there it does happen: with no error on record, an overflow and a repair that fails leave the
      index where it was and the status reading caught up. */
  lemma BehindCanHide(m: System)
    requires m.appender == Stored && m.worker == Asleep && m.shared.queue == [] && !m.shared.closed && !m.shared.errored
    requires Behind(m.shared)
    ensures var n := Run(m, FailedRepair, 0);
            && n == m.(appender := Ready, worker := Failed(Retry), shared := m.shared.(token := false, needsRepair := false, reconciling := false))
            && Behind(n.shared) && ReadsCaughtUp(n.shared)
  {
    hide Run;
    var moves := FailedRepair;
    OverflowWakes(m);
    RunTake(m, moves, 3, 0);
    RunTake(m, moves, 4, 0);
    RunTake(m, moves, 5, 0);
    RunTake(m, moves, 6, 0);
    assert moves[..7] == moves;
  }

  /** A session opened on an empty ledger gets there with its first event. */
  lemma FirstEventCanHide()
    ensures var m := Run(Opened([], 0), [Store([])] + FailedRepair, 0); var s := m.shared;
            s.watermark == 0 && PostedCount(m) == 1 && s.queue == [] && !Degraded(s) && Behind(s)
  {
    hide Run;
    var start, stored := Opened([], 0), [Store([])];
    assert (stored + FailedRepair)[1..] == FailedRepair;
    RunFirst(start, stored + FailedRepair, 0);
    BehindCanHide(Moved(start, Store([]), 0));
  }

  lemma RunFirst(m: System, moves: seq<Move>, depth: nat)
    requires moves != []
    ensures Run(m, moves, depth) == Run(Moved(m, moves[0], depth), moves[1..], depth)
  {
    hide Moved;
  }

  lemma OverflowWakes(m: System)
    requires m.appender == Stored && m.worker == Asleep && m.shared.queue == []
    ensures Run(m, FailedRepair[..3], 0) == System(m.shared.(token := false, needsRepair := true), Ready, Looking)
  {
    hide Run;
    RunNone(m, FailedRepair);
    RunTake(m, FailedRepair, 0, 0);
    RunTake(m, FailedRepair, 1, 0);
    RunTake(m, FailedRepair, 2, 0);
  }

  lemma RunNone(m: System, moves: seq<Move>)
    ensures Run(m, moves[..0], 0) == m
  {
  }

  method KeepNewer(queue: seq<nat>, mark: nat) returns (kept: seq<nat>)
    ensures kept == Newer(queue, mark)
  {
    kept := [];
    var i := 0;
    assert queue[0..] == queue;
    while i < |queue|
      invariant 0 <= i <= |queue|
      invariant kept + Newer(queue[i..], mark) == Newer(queue, mark)
    {
      NewerStep(queue, i, mark, kept);
      if queue[i] > mark {
        kept := kept + [queue[i]];
      }
      i := i + 1;
    }
    assert queue[i..] == [] && kept + [] == kept;
  }

  lemma NewerStep(queue: seq<nat>, i: nat, mark: nat, kept: seq<nat>)
    requires i < |queue|
    ensures kept + Newer(queue[i..], mark) == (if queue[i] > mark then kept + [queue[i]] else kept) + Newer(queue[i + 1..], mark)
  {
    assert queue[i..][1..] == queue[i + 1..];
  }

  // ---- the fields, and the locked sections that change them ----

  class MaintenanceState {
    var ledger: seq<Unit>
    var base: nat
    var queue: seq<nat>
    var needsRepair: bool
    var reconciling: bool
    var errored: bool
    var token: bool
    var closed: bool
    var table: Table
    var watermark: nat

    ghost function State(): Shared
      reads this
    {
      Shared(ledger, base, queue, needsRepair, reconciling, errored, token, closed, table, watermark)
    }

    constructor (ledger: seq<Unit>, table: Table, watermark: nat)
      ensures State() == Shared(ledger, |ledger|, [], false, false, false, false, false, table, watermark)
    {
      this.ledger, base, this.table, this.watermark := ledger, |ledger|, table, watermark;
      queue, needsRepair, reconciling, errored, token, closed := [], false, false, false, false, false;
    }

    /** The append path, after the event was stored. */
    method PostUnit(compiled: bool, depth: nat)
      modifies this
      ensures State() == Posting(old(State()), compiled, depth)
    {
      if !compiled {
        needsRepair := true;
      } else if |queue| >= depth {
        needsRepair := true;
      } else {
        queue := queue + [|ledger|];
      }
    }

    /** The wake channel holds one token; a second send is dropped. */
    method WakeWorker()
      modifies this
      ensures State() == old(State()).(token := true)
    {
      if !token {
        token := true;
      }
    }

    method MarkMaintenanceRepair()
      modifies this
      ensures State() == old(State()).(needsRepair := true)
    {
      needsRepair := true;
    }

    method BeginReconciling()
      modifies this
      ensures State() == Beginning(old(State()))
    {
      needsRepair := false;
      reconciling := true;
    }

    /** Units the repair has covered are dropped; later arrivals are kept in order. */
    method FinishReconciling(mark: nat)
      modifies this
      ensures State() == Trimmed(old(State()), mark)
    {
      var kept := KeepNewer(queue, mark);
      queue := kept;
      reconciling := false;
    }

    method ClearReconcilingFlag()
      modifies this
      ensures State() == old(State()).(reconciling := false)
    {
      reconciling := false;
    }

    method RecordMaintenanceError()
      modifies this
      ensures State() == old(State()).(errored := true)
    {
      errored := true;
    }

    method RecordMaintenanceOK()
      modifies this
      ensures State() == old(State()).(errored := false)
    {
      errored := false;
    }

    /** What an operator is shown: degraded, and how much is pending. */
    method MaintenanceStatus() returns (degraded: bool, pending: nat)
      ensures degraded == Degraded(State()) && pending == |State().queue|
    {
      var rebuilding := needsRepair || reconciling;
      degraded, pending := errored || rebuilding, |queue|;
    }

    method PopUnit(unit: nat)
      modifies this
      ensures State() == Popped(old(State()), unit)
    {
      if queue != [] && queue[0] == unit {
        queue := queue[1..];
      }
    }
  }
}
