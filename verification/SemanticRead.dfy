/** The optimistic semantic read, against what one atomic look would give. */
module SemanticRead {
  import opened IndexStore
  import Snapshots
  import Descriptors

  // The append lock is taken only to read a revision before and after.

  type Gate = (Snapshots.Snapshot, WarmPage) -> bool

  datatype Holder = Nobody | Appender

  /** Coherence by revision, the ledger's compiled events, the last announced event, the index position. */
  datatype World = World(
    history: seq<Snapshots.Snapshot>, ledger: seq<Unit>, lastSeq: nat, watermark: nat, generation: nat,
    lock: Holder, failed: bool)

  datatype Projection = Projection(generation: nat, watermark: nat)

  datatype Bracket = Bracket(revision: nat, lastSeq: nat)

  datatype Search =
    | Idle
    | Took(at: Bracket)
    | ReadGeneration(at: Bracket, generation: nat)
    | ReadBefore(at: Bracket, before: Projection)
    | Filtering(at: Bracket, before: Projection, authority: Projection, listed: seq<WarmPage>, next: nat, kept: seq<WarmPage>)
    | ReadGenerationAgain(at: Bracket, before: Projection, authority: Projection, listed: seq<WarmPage>, kept: seq<WarmPage>, again: nat)
    | ReadAfter(at: Bracket, before: Projection, authority: Projection, listed: seq<WarmPage>, kept: seq<WarmPage>, after: Projection)
    | Captured(at: Bracket, listed: seq<WarmPage>, kept: seq<WarmPage>)
    | Committed(listed: seq<WarmPage>, kept: seq<WarmPage>)

  datatype System = System(world: World, search: Search)

  datatype Move =
    | Lock
    | StoreEvent(unit: Unit)
    | CommitCoherence(next: Snapshots.Snapshot)
    | AnnounceEvent
    | FailStop
    | Unlock
    | IndexMoves(watermark: nat, generation: nat)
    | Begin
    | SeeGeneration
    | SeeWatermark
    | ListPages(pages: seq<WarmPage>)
    | FilterNext
    | SeeGenerationAgain
    | SeeWatermarkAgain
    | EndCapture
    | CommitResidency
    | Abandon

  // ---- meaning ----

  function Kept(gate: Gate, s: Snapshots.Snapshot, pages: seq<WarmPage>): seq<WarmPage> {
    if pages == [] then []
    else Kept(gate, s, pages[..|pages| - 1]) + if gate(s, pages[|pages| - 1]) then [pages[|pages| - 1]] else []
  }

  /** A listing of all pages of a table, in some order. */
  ghost predicate ListsTable(pages: seq<WarmPage>, t: Table) {
    forall p :: p in pages <==> p.id in t && t[p.id] == p
  }

  function Revision(w: World): int {
    |w.history| - 1
  }

  // ---- moves; an impossible one changes nothing ----

  ghost function Moved(m: System, move: Move, gate: Gate): System {
    var w, r := m.world, m.search;
    match move
    case Lock => if w.lock == Nobody && !w.failed then m.(world := w.(lock := Appender)) else m
    case StoreEvent(unit) =>
      if w.lock == Appender && w.lastSeq == |w.ledger| then m.(world := w.(ledger := w.ledger + [unit])) else m
    case CommitCoherence(next) =>
      if w.lock == Appender && w.lastSeq < |w.ledger| then m.(world := w.(history := w.history + [next])) else m
    case AnnounceEvent =>
      if w.lock == Appender then m.(world := w.(lastSeq := |w.ledger|)) else m
    case FailStop =>
      if w.lock == Appender then m.(world := w.(failed := true, lock := Nobody)) else m
    case Unlock =>
      if w.lock == Appender && w.lastSeq == |w.ledger| then m.(world := w.(lock := Nobody)) else m
    case IndexMoves(mark, generation) =>
      if mark <= |w.ledger| then m.(world := w.(watermark := mark, generation := generation)) else m
    case Begin =>
      if r == Idle && w.lock == Nobody && !w.failed && w.history != [] then m.(search := Took(Bracket(|w.history| - 1, w.lastSeq))) else m
    case SeeGeneration =>
      if r.Took? then m.(search := ReadGeneration(r.at, w.generation)) else m
    case SeeWatermark =>
      if r.ReadGeneration? then m.(search := ReadBefore(r.at, Projection(r.generation, w.watermark))) else m
    case ListPages(pages) =>
      if r.ReadBefore? && w.watermark <= |w.ledger| && ListsTable(pages, Folded(w.ledger, w.watermark)) then
        m.(search := Filtering(r.at, r.before, Projection(w.generation, w.watermark), pages, 0, []))
      else m
    case FilterNext =>
      if r.Filtering? && r.next < |r.listed| && w.history != [] then
        var p := r.listed[r.next];
        m.(search := r.(next := r.next + 1, kept := r.kept + if gate(w.history[|w.history| - 1], p) then [p] else []))
      else m
    case SeeGenerationAgain =>
      if r.Filtering? && r.next == |r.listed| then
        m.(search := ReadGenerationAgain(r.at, r.before, r.authority, r.listed, r.kept, w.generation))
      else m
    case SeeWatermarkAgain =>
      if r.ReadGenerationAgain? then
        m.(search := ReadAfter(r.at, r.before, r.authority, r.listed, r.kept, Projection(r.again, w.watermark)))
      else m
    case EndCapture =>
      if r.ReadAfter? && w.lock == Nobody && !w.failed then
        if Revision(w) == r.at.revision && w.lastSeq == r.at.lastSeq
           && r.before == r.authority && r.authority == r.after && r.after.watermark == r.at.lastSeq
        then m.(search := Captured(r.at, r.listed, r.kept))
        else m.(search := Idle)
      else m
    case CommitResidency =>
      if r.Captured? && w.lock == Nobody && !w.failed then
        if Revision(w) == r.at.revision && w.lastSeq == r.at.lastSeq then m.(search := Committed(r.listed, r.kept))
        else m.(search := Idle)
      else m
    case Abandon => m.(search := Idle)
  }

  // ---- what is kept ----

  ghost predicate WorldTrue(w: World) {
    && w.history != []
    && w.lastSeq <= |w.ledger| && w.watermark <= |w.ledger|
    && (w.lock == Nobody && !w.failed ==> w.lastSeq == |w.ledger|)
  }

  /** What was kept so far is right if no coherence commit has happened since the bracket was taken. */
  ghost predicate KeptTrue(w: World, gate: Gate, at: Bracket, seen: seq<WarmPage>, kept: seq<WarmPage>) {
    at.revision < |w.history| && (at.revision == |w.history| - 1 ==> kept == Kept(gate, w.history[at.revision], seen))
  }

  ghost predicate ListedTrue(w: World, listed: seq<WarmPage>, watermark: nat) {
    watermark <= |w.ledger| && ListsTable(listed, Folded(w.ledger, watermark))
  }

  ghost predicate SearchTrue(w: World, r: Search, gate: Gate) {
    match r
    case Filtering(at, _, authority, listed, next, kept) =>
      next <= |listed| && KeptTrue(w, gate, at, listed[..next], kept) && ListedTrue(w, listed, authority.watermark)
    case ReadGenerationAgain(at, _, authority, listed, kept, _) =>
      KeptTrue(w, gate, at, listed, kept) && ListedTrue(w, listed, authority.watermark)
    case ReadAfter(at, _, authority, listed, kept, _) =>
      KeptTrue(w, gate, at, listed, kept) && ListedTrue(w, listed, authority.watermark)
    case Captured(at, listed, kept) =>
      KeptTrue(w, gate, at, listed, kept) && ListedTrue(w, listed, at.lastSeq)
    case Idle => true
    case Committed(_, _) => true
    case _ => r.at.revision < |w.history|
  }

  ghost predicate Inv(m: System, gate: Gate) {
    WorldTrue(m.world) && SearchTrue(m.world, m.search, gate)
  }

  /** Coherence and the ledger only grow, and what the search knows survives that. */
  lemma GrowthKeeps(w: World, v: World, r: Search, gate: Gate)
    requires w.history <= v.history && w.ledger <= v.ledger && w.history != []
    requires SearchTrue(w, r, gate)
    ensures SearchTrue(v, r, gate)
  {
    hide Kept, ListsTable, Folded;
    assert |v.history| == |w.history| ==> v.history == w.history;
    var more := v.ledger[|w.ledger|..];
    assert v.ledger == w.ledger + more;
    match r
    case Filtering(_, _, authority, _, _, _) => FoldedOfLonger(w.ledger, more, authority.watermark);
    case ReadGenerationAgain(_, _, authority, _, _, _) => FoldedOfLonger(w.ledger, more, authority.watermark);
    case ReadAfter(_, _, authority, _, _, _) => FoldedOfLonger(w.ledger, more, authority.watermark);
    case Captured(at, _, _) => FoldedOfLonger(w.ledger, more, at.lastSeq);
    case _ =>
  }

  predicate WorldMove(move: Move) {
    move.Lock? || move.StoreEvent? || move.CommitCoherence? || move.AnnounceEvent? || move.FailStop? || move.Unlock? || move.IndexMoves?
  }

  lemma WorldMoveKeeps(m: System, move: Move, gate: Gate)
    requires Inv(m, gate) && WorldMove(move)
    ensures Inv(Moved(m, move, gate), gate)
  {
    hide SearchTrue;
    GrowthKeeps(m.world, Moved(m, move, gate).world, m.search, gate);
  }

  lemma FilterKeeps(m: System, gate: Gate)
    requires Inv(m, gate)
    ensures Inv(Moved(m, FilterNext, gate), gate)
  {
    hide ListedTrue;
    var w, r := m.world, m.search;
    if r.Filtering? && r.next < |r.listed| {
      var seen := r.listed[..r.next + 1];
      assert seen[..|seen| - 1] == r.listed[..r.next] && seen[|seen| - 1] == r.listed[r.next];
    }
  }

  lemma SearchMoveKeeps(m: System, move: Move, gate: Gate)
    requires Inv(m, gate) && !WorldMove(move)
    ensures Inv(Moved(m, move, gate), gate)
  {
    hide Kept, ListsTable, Folded;
    if move == FilterNext {
      FilterKeeps(m, gate);
    } else if move.ListPages? {
      KeptOfNone(gate, m.world.history[|m.world.history| - 1]);
      assert move.pages[..0] == [];
      if m.search.ReadBefore? { KeptOfNone(gate, m.world.history[m.search.at.revision]); }
    } else if move == SeeGenerationAgain && m.search.Filtering? {
      assert m.search.listed[..|m.search.listed|] == m.search.listed;
    }
  }

  lemma KeptOfNone(gate: Gate, s: Snapshots.Snapshot)
    ensures Kept(gate, s, []) == []
  {
  }

  lemma MoveKeeps(m: System, move: Move, gate: Gate)
    requires Inv(m, gate)
    ensures Inv(Moved(m, move, gate), gate)
  {
    hide Inv, Moved;
    if WorldMove(move) { WorldMoveKeeps(m, move, gate); } else { SearchMoveKeeps(m, move, gate); }
  }

  ghost function Run(m: System, moves: seq<Move>, gate: Gate): System
    decreases |moves|
  {
    if moves == [] then m else Run(Moved(m, moves[0], gate), moves[1..], gate)
  }

  lemma {:induction false} RunKeeps(m: System, moves: seq<Move>, gate: Gate)
    requires Inv(m, gate)
    ensures Inv(Run(m, moves, gate), gate)
    decreases |moves|
  {
    hide Inv, Moved;
    if moves != [] {
      MoveKeeps(m, moves[0], gate);
      RunKeeps(Moved(m, moves[0], gate), moves[1..], gate);
    }
  }

  /** A search that commits: at that moment its pages list the index of the whole ledger, and those it
      kept are the ones coherence finds eligible, all read at once. */
  lemma CommitIsAtomic(start: World, moves: seq<Move>, gate: Gate)
    requires WorldTrue(start)
    ensures var m := Run(System(start, Idle), moves, gate); var n := Moved(m, CommitResidency, gate); var w := n.world;
            m.search.Captured? && n.search.Committed? ==>
              w.history != []
              && ListsTable(n.search.listed, Folded(w.ledger, |w.ledger|))
              && n.search.kept == Kept(gate, w.history[|w.history| - 1], n.search.listed)
  {
    hide Run, Kept, ListsTable, Folded;
    RunKeeps(System(start, Idle), moves, gate);
  }

  /** What is kept is exactly the eligible part of the listing. */
  lemma {:induction false} KeptExactly(gate: Gate, s: Snapshots.Snapshot, pages: seq<WarmPage>)
    ensures forall p :: p in Kept(gate, s, pages) <==> p in pages && gate(s, p)
    decreases |pages|
  {
    if pages != [] {
      var front := pages[..|pages| - 1];
      KeptExactly(gate, s, front);
      assert pages == front + [pages[|pages| - 1]];
    }
  }

  // ---- with coherence's own gate ----

  /** The gate the runtime uses: coherence would serve the page's descriptor. */
  function StatusGate(describe: WarmPage -> Descriptors.Descriptor): Gate {
    (s: Snapshots.Snapshot, p: WarmPage) => Descriptors.PageStatus(s, describe(p)).status == Snapshots.Active
  }

  /** A search that commits has kept exactly the pages the whole ledger leaves in the index whose
      descriptors coherence serves at that moment. */
  lemma CommitKeepsServedPages(start: World, moves: seq<Move>, describe: WarmPage -> Descriptors.Descriptor)
    requires WorldTrue(start)
    ensures var gate := StatusGate(describe);
            var m := Run(System(start, Idle), moves, gate); var n := Moved(m, CommitResidency, gate); var w := n.world;
            m.search.Captured? && n.search.Committed? ==>
              && w.history != []
              && var now, table := w.history[|w.history| - 1], Folded(w.ledger, |w.ledger|);
                 forall p :: p in n.search.kept <==>
                   p.id in table && table[p.id] == p && Descriptors.PageStatus(now, describe(p)).status == Snapshots.Active
  {
    hide Run, Moved, Kept, Folded, Descriptors.PageStatus, WorldTrue;
    var gate := StatusGate(describe);
    CommitIsAtomic(start, moves, gate);
    var m := Run(System(start, Idle), moves, gate);
    var n := Moved(m, CommitResidency, gate);
    if m.search.Captured? && n.search.Committed? {
      KeptExactly(gate, n.world.history[|n.world.history| - 1], n.search.listed);
    }
  }
}
