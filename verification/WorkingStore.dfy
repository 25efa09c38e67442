/** The working-state store: records by id in insertion order, with the evidence each came from. */
module WorkingStore {
  import opened Text
  import opened Records

  datatype Working = Working(byId: map<string, Record>, order: seq<string>, events: set<string>, evidence: map<string, string>)

  const NoRecords := Working(map[], [], {}, map[])

  datatype Update = Update(upsert: bool, record: Option<Record>, evidence: string)

  datatype Error = DanglingAvoid | WrongEvidence | UnsupportedOp | NilRecord | EvidenceRequired | EvidenceNotNoted | LintRejected

  datatype Result<+T> = Ok(value: T) | Err(error: Error)

  /** Whether the cross-record checks accept the working state with the record put in; any choice. */
  type Lint = (Working, Record) -> bool

  // ---- what lint refuses by looking at the record it replaces ----

  predicate KeepsKind(before: Record, after: Record) {
    before.RecordKind() == after.RecordKind()
  }

  /** A failure's command and error, and a constraint's text, cannot change once they are set. */
  predicate KeepsEvidence(before: Record, after: Record) {
    && (before.Failure? && after.Failure? ==>
          (before.cmd != "" ==> after.cmd == before.cmd) && (before.err != "" ==> after.err == before.err))
    && (before.Constraint? && after.Constraint? ==> before.text != "" ==> after.text == before.text)
  }

  predicate Accepts(w: Working, r: Record, lint: Lint) {
    && (r.Id() in w.byId ==> KeepsKind(w.byId[r.Id()], r) && KeepsEvidence(w.byId[r.Id()], r))
    && lint(w, r)
  }

  // ---- references ----

  function TrimCommas(s: string): string {
    TrimCommasRight(TrimCommasLeft(s))
  }

  function TrimCommasLeft(s: string): string {
    if s != "" && s[0] == ',' then TrimCommasLeft(s[1..]) else s
  }

  function TrimCommasRight(s: string): string {
    if s != "" && s[|s| - 1] == ',' then TrimCommasRight(s[..|s| - 1]) else s
  }

  predicate RefExists(ref: string, known: set<string>) {
    forall part :: part in Fields(TrimSpace(ref)) ==> TrimCommas(part) in known
  }

  function KnownIds(w: Working): set<string> {
    w.byId.Keys + w.events
  }

  predicate Dangling(u: Update, known: set<string>) {
    u.record.Some? && u.record.value.Avoid? && u.record.value.ref != "" && !RefExists(u.record.value.ref, known)
  }

  // ---- the transformation ----

  function Upserted(w: Working, r: Record): Working {
    w.(order := if r.Id() in w.byId then w.order else w.order + [r.Id()], byId := w.byId[r.Id() := r])
  }

  function ApplyOne(w: Working, u: Update, requireEvidence: bool, lint: Lint): Result<Working> {
    if !u.upsert then Err(UnsupportedOp)
    else if u.record.None? then Err(NilRecord)
    else if requireEvidence && u.evidence == "" then Err(EvidenceRequired)
    else if u.evidence != "" && u.evidence !in w.events then Err(EvidenceNotNoted)
    else if !Accepts(w, u.record.value, lint) then Err(LintRejected)
    else
      var put := Upserted(w, u.record.value);
      var id := u.record.value.Id();
      Ok(put.(evidence := if u.evidence != "" then put.evidence[id := u.evidence] else put.evidence - {id}))
  }

  function ApplyEach(w: Working, updates: seq<Update>, requireEvidence: bool, note: string, lint: Lint): Result<Working>
    decreases |updates|
  {
    if updates == [] then Ok(w)
    else if note != "" && updates[0].evidence != note then Err(WrongEvidence)
    else
      match ApplyOne(w, updates[0], requireEvidence, lint)
      case Err(e) => Err(e)
      case Ok(next) => ApplyEach(next, updates[1..], requireEvidence, note, lint)
  }

  function Applied(w: Working, updates: seq<Update>, requireEvidence: bool, note: string, lint: Lint): Result<Working> {
    if requireEvidence && exists i :: 0 <= i < |updates| && Dangling(updates[i], KnownIds(w)) then Err(DanglingAvoid)
    else ApplyEach(if note != "" then w.(events := w.events + {note}) else w, updates, requireEvidence, note, lint)
  }

  // ---- what holds of every store ----

  /** The order lists the records, each once; every provenance entry names a record and a noted event. */
  ghost predicate Consistent(w: Working) {
    && (forall id :: id in w.order <==> id in w.byId)
    && (forall i, j :: 0 <= i < j < |w.order| ==> w.order[i] != w.order[j])
    && (forall id :: id in w.byId ==> w.byId[id].Id() == id)
    && (forall id :: id in w.evidence ==> id in w.byId && w.evidence[id] in w.events)
  }

  lemma ApplyOneKeeps(w: Working, u: Update, requireEvidence: bool, lint: Lint)
    requires Consistent(w) && ApplyOne(w, u, requireEvidence, lint).Ok?
    ensures Consistent(ApplyOne(w, u, requireEvidence, lint).value)
  {
  }

  /** What a batch may do to a store: order grows at its end, records keep their kind and what was
      evidence in them. */
  ghost predicate Evolves(w: Working, v: Working) {
    && w.order <= v.order
    && w.events <= v.events
    && w.byId.Keys <= v.byId.Keys
    && (forall id :: id in w.byId && id in v.byId ==> KeepsKind(w.byId[id], v.byId[id]) && KeepsEvidence(w.byId[id], v.byId[id]))
  }

  lemma EvolvesTwice(w: Working, m: Working, v: Working)
    requires Evolves(w, m) && Evolves(m, v)
    ensures Evolves(w, v)
  {
    assert w.order == m.order[..|w.order|] == v.order[..|m.order|][..|w.order|] == v.order[..|w.order|];
    forall id | id in w.byId
      ensures KeepsEvidence(w.byId[id], v.byId[id])
    {
      assert id in m.byId;
    }
  }

  lemma ApplyOneEvolves(w: Working, u: Update, requireEvidence: bool, lint: Lint)
    requires ApplyOne(w, u, requireEvidence, lint).Ok?
    ensures Evolves(w, ApplyOne(w, u, requireEvidence, lint).value)
  {
  }

  lemma {:induction false} ApplyEachKeeps(w: Working, updates: seq<Update>, requireEvidence: bool, note: string, lint: Lint)
    requires Consistent(w) && ApplyEach(w, updates, requireEvidence, note, lint).Ok?
    ensures Consistent(ApplyEach(w, updates, requireEvidence, note, lint).value)
    ensures Evolves(w, ApplyEach(w, updates, requireEvidence, note, lint).value)
    decreases |updates|
  {
    hide ApplyOne, Consistent, Evolves;
    if updates == [] {
      assert Evolves(w, w) by { EvolvesNot(w); }
    } else {
      ApplyOneKeeps(w, updates[0], requireEvidence, lint);
      ApplyOneEvolves(w, updates[0], requireEvidence, lint);
      var next := ApplyOne(w, updates[0], requireEvidence, lint).value;
      ApplyEachKeeps(next, updates[1..], requireEvidence, note, lint);
      EvolvesTwice(w, next, ApplyEach(next, updates[1..], requireEvidence, note, lint).value);
    }
  }

  lemma EvolvesNot(w: Working)
    ensures Evolves(w, w)
  {
  }

  /** The last update of an id in a batch, if there is one. */
  function LastOf(updates: seq<Update>, id: string): Option<Update> {
    if updates == [] then None
    else
      var last := updates[|updates| - 1];
      if last.record.Some? && last.record.value.Id() == id then Some(last) else LastOf(updates[..|updates| - 1], id)
  }

  lemma LastOfFirst(updates: seq<Update>, id: string)
    requires updates != []
    ensures LastOf(updates, id) ==
            if LastOf(updates[1..], id).Some? then LastOf(updates[1..], id)
            else if updates[0].record.Some? && updates[0].record.value.Id() == id then Some(updates[0]) else None
    decreases |updates|
  {
    if |updates| > 1 {
      assert updates[..|updates| - 1][1..] == updates[1..][..|updates| - 2];
      assert updates[1..][|updates| - 2] == updates[|updates| - 1];
      LastOfFirst(updates[..|updates| - 1], id);
    }
  }

  /** A batch leaves under each id the last record it has for it, with that update's evidence, and
      leaves every other id alone. */
  lemma {:induction false} BatchResult(w: Working, updates: seq<Update>, requireEvidence: bool, note: string, lint: Lint, id: string)
    requires ApplyEach(w, updates, requireEvidence, note, lint).Ok?
    ensures var v := ApplyEach(w, updates, requireEvidence, note, lint).value;
            match LastOf(updates, id)
            case None =>
              && (id in v.byId <==> id in w.byId) && (id in w.byId ==> v.byId[id] == w.byId[id])
              && (id in v.evidence <==> id in w.evidence) && (id in w.evidence ==> v.evidence[id] == w.evidence[id])
            case Some(u) =>
              && id in v.byId && u.record == Some(v.byId[id])
              && (id in v.evidence <==> u.evidence != "") && (u.evidence != "" ==> v.evidence[id] == u.evidence)
    decreases |updates|
  {
    hide Accepts;
    if updates != [] {
      LastOfFirst(updates, id);
      BatchResult(ApplyOne(w, updates[0], requireEvidence, lint).value, updates[1..], requireEvidence, note, lint, id);
    }
  }

  /** A derived batch that goes in names its own event as the evidence of everything it wrote. */
  lemma DerivedBatchIsGrounded(w: Working, updates: seq<Update>, note: string, lint: Lint, i: nat)
    requires note != "" && Applied(w, updates, true, note, lint).Ok? && i < |updates|
    ensures updates[i].record.Some?
    ensures var v := Applied(w, updates, true, note, lint).value; var id := updates[i].record.value.Id();
            note in v.events && id in v.byId && id in v.evidence && v.evidence[id] == note
  {
    hide Dangling;
    var noted := w.(events := w.events + {note});
    EachIsGrounded(noted, updates, note, lint, i);
    var id := updates[i].record.value.Id();
    BatchResult(noted, updates, true, note, lint, id);
    LastOfExists(updates, i, id);
    LastIsGrounded(noted, updates, note, lint, id);
    ApplyEachKeepsEvents(noted, updates, note, lint);
  }

  lemma {:induction false} ApplyEachKeepsEvents(w: Working, updates: seq<Update>, note: string, lint: Lint)
    requires ApplyEach(w, updates, true, note, lint).Ok?
    ensures ApplyEach(w, updates, true, note, lint).value.events == w.events
    decreases |updates|
  {
    hide Accepts;
    if updates != [] { ApplyEachKeepsEvents(ApplyOne(w, updates[0], true, lint).value, updates[1..], note, lint); }
  }

  lemma {:induction false} EachIsGrounded(w: Working, updates: seq<Update>, note: string, lint: Lint, i: nat)
    requires note != "" && ApplyEach(w, updates, true, note, lint).Ok? && i < |updates|
    ensures updates[i].record.Some? && updates[i].evidence == note
    decreases |updates|
  {
    if i > 0 { EachIsGrounded(ApplyOne(w, updates[0], true, lint).value, updates[1..], note, lint, i - 1); }
  }

  lemma {:induction false} LastOfExists(updates: seq<Update>, i: nat, id: string)
    requires i < |updates| && updates[i].record.Some? && updates[i].record.value.Id() == id
    ensures LastOf(updates, id).Some?
    decreases |updates|
  {
    if i < |updates| - 1 { LastOfExists(updates[..|updates| - 1], i, id); }
  }

  lemma {:induction false} LastOfIsThere(updates: seq<Update>, id: string) returns (i: nat)
    requires LastOf(updates, id).Some?
    ensures i < |updates| && Some(updates[i]) == LastOf(updates, id)
  {
    var last := updates[|updates| - 1];
    if last.record.Some? && last.record.value.Id() == id {
      i := |updates| - 1;
    } else {
      i := LastOfIsThere(updates[..|updates| - 1], id);
    }
  }

  lemma LastIsGrounded(w: Working, updates: seq<Update>, note: string, lint: Lint, id: string)
    requires note != "" && ApplyEach(w, updates, true, note, lint).Ok? && LastOf(updates, id).Some?
    ensures LastOf(updates, id).value.evidence == note
  {
    hide ApplyEach;
    var i := LastOfIsThere(updates, id);
    EachIsGrounded(w, updates, note, lint, i);
  }

  // ---- the store as the code keeps it ----

  class WorkingState {
    var byId: map<string, Record>
    var order: seq<string>
    var events: set<string>
    var evidence: map<string, string>

    ghost function Contents(): Working
      reads this
    {
      Working(byId, order, events, evidence)
    }

    constructor ()
      ensures Contents() == NoRecords
    {
      byId, order, events, evidence := map[], [], {}, map[];
    }

    method UpsertUnchecked(r: Record)
      modifies this
      ensures Contents() == Upserted(old(Contents()), r)
    {
      if r.Id() !in byId {
        order := order + [r.Id()];
      }
      byId := byId[r.Id() := r];
    }

    /** A fresh copy, record by record in order; a consistent store loses nothing. */
    method Clone() returns (c: WorkingState)
      requires Consistent(Contents())
      ensures fresh(c) && c.Contents() == Contents()
    {
      c := new WorkingState();
      var i := 0;
      while i < |order|
        invariant 0 <= i <= |order|
        invariant c.order == order[..i] && c.events == {} && c.evidence == map[]
        invariant forall id :: id in c.byId <==> id in order[..i]
        invariant forall id :: id in c.byId ==> c.byId[id] == byId[id]
      {
        var id := order[i];
        assert id in byId && byId[id].Id() == id;
        assert id !in order[..i];
        c.UpsertUnchecked(byId[id]);
        assert order[..i + 1] == order[..i] + [id];
        i := i + 1;
      }
      assert order[..i] == order;
      assert c.byId == byId;
      c.events, c.evidence := events, evidence;
    }

    method ApplyUpdate(u: Update, requireEvidence: bool, lint: Lint) returns (err: Option<Error>)
      modifies this
      ensures match ApplyOne(old(Contents()), u, requireEvidence, lint)
              case Ok(w) => err == None && Contents() == w
              case Err(e) => err == Some(e)
    {
      hide Accepts;
      if !u.upsert {
        return Some(UnsupportedOp);
      }
      if u.record.None? {
        return Some(NilRecord);
      }
      if requireEvidence && u.evidence == "" {
        return Some(EvidenceRequired);
      }
      if u.evidence != "" && u.evidence !in events {
        return Some(EvidenceNotNoted);
      }
      if !Accepts(Working(byId, order, events, evidence), u.record.value, lint) {
        return Some(LintRejected);
      }
      UpsertUnchecked(u.record.value);
      var id := u.record.value.Id();
      if u.evidence != "" {
        evidence := evidence[id := u.evidence];
      } else {
        evidence := evidence - {id};
      }
      err := None;
    }

    /** All of the batch or nothing: the work is done on a clone that replaces the store at the end. */
    method ApplyUpdates(updates: seq<Update>, requireEvidence: bool, note: string, lint: Lint) returns (err: Option<Error>)
      requires Consistent(Contents())
      modifies this
      ensures match Applied(old(Contents()), updates, requireEvidence, note, lint)
              case Ok(w) => err == None && Contents() == w && Consistent(w) && Evolves(old(Contents()), w)
              case Err(e) => err == Some(e) && Contents() == old(Contents())
    {
      hide Dangling, ApplyOne, Consistent, Evolves;
      if requireEvidence {
        var known := byId.Keys + events;
        var k := 0;
        while k < |updates|
          invariant 0 <= k <= |updates|
          invariant forall j :: 0 <= j < k ==> !Dangling(updates[j], known)
        {
          if Dangling(updates[k], known) {
            return Some(DanglingAvoid);
          }
          k := k + 1;
        }
      }
      var candidate := Clone();
      if note != "" {
        candidate.events := candidate.events + {note};
      }
      ghost var noted := candidate.Contents();
      assert Consistent(noted) && Evolves(Contents(), noted) by { NotingKeeps(Contents(), note); }
      var i := 0;
      while i < |updates|
        invariant 0 <= i <= |updates| && Contents() == old(Contents())
        invariant ApplyEach(candidate.Contents(), updates[i..], requireEvidence, note, lint) == ApplyEach(noted, updates, requireEvidence, note, lint)
      {
        assert updates[i..][0] == updates[i] && updates[i..][1..] == updates[i + 1..];
        if note != "" && updates[i].evidence != note {
          return Some(WrongEvidence);
        }
        var failed := candidate.ApplyUpdate(updates[i], requireEvidence, lint);
        if failed != None {
          return failed;
        }
        i := i + 1;
      }
      ApplyEachKeeps(noted, updates, requireEvidence, note, lint);
      EvolvesTwice(Contents(), noted, candidate.Contents());
      byId, order, events, evidence := candidate.byId, candidate.order, candidate.events, candidate.evidence;
      err := None;
    }
  }

  lemma NotingKeeps(w: Working, note: string)
    requires Consistent(w)
    ensures var v := if note != "" then w.(events := w.events + {note}) else w; Consistent(v) && Evolves(w, v)
  {
  }
}
