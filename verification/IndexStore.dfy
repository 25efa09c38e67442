/** The warm index: pages by id and a watermark per session, kept in step with the ledger. */
module IndexStore {

  datatype Option<+T> = None | Some(value: T)

  datatype WarmPage = WarmPage(id: string, version: nat, digest: string, text: string)

  /** The pages compiled from one event. */
  type Unit = seq<WarmPage>

  type Table = map<string, WarmPage>

  datatype IndexError = Closed | Gap | StoreFailed | Malformed

  datatype Mark = Mark(seqNo: nat, pageVersion: nat)

  predicate ValidPage(p: WarmPage) {
    p.id != "" && p.version > 0
  }

  // ---- applying pages ----

  /** An older version never replaces a newer one, and the same page is not written twice. */
  function Upserted(t: Table, p: WarmPage): Table {
    if p.id in t && (p.version < t[p.id].version || (p.version == t[p.id].version && p.digest == t[p.id].digest)) then t
    else t[p.id := p]
  }

  function AppliedUnit(t: Table, unit: Unit): Table
    decreases |unit|
  {
    if unit == [] then t else AppliedUnit(Upserted(t, unit[0]), unit[1..])
  }

  /** The table after the first n events of a ledger. */
  function Folded(ledger: seq<Unit>, n: nat): Table
    requires n <= |ledger|
  {
    if n == 0 then map[] else AppliedUnit(Folded(ledger, n - 1), ledger[n - 1])
  }

  /** Pages carry the number of the event they were compiled from, and no id occurs twice. */
  predicate CompiledAt(unit: Unit, n: nat) {
    && (forall i :: 0 <= i < |unit| ==> unit[i].version == n && ValidPage(unit[i]))
    && (forall i, j :: 0 <= i < j < |unit| ==> unit[i].id != unit[j].id)
  }

  predicate WellCompiled(ledger: seq<Unit>) {
    forall n :: 0 <= n < |ledger| ==> CompiledAt(ledger[n], n + 1)
  }

  predicate Has(unit: Unit, id: string) {
    exists i :: 0 <= i < |unit| && unit[i].id == id
  }

  /** The last event up to n with a page of that id, or zero. */
  function LatestUnit(ledger: seq<Unit>, n: nat, id: string): (k: nat)
    requires n <= |ledger|
    ensures k <= n && (k > 0 ==> Has(ledger[k - 1], id)) && forall j :: k <= j < n ==> !Has(ledger[j], id)
  {
    if n == 0 then 0 else if Has(ledger[n - 1], id) then n else LatestUnit(ledger, n - 1, id)
  }

  /** A unit written over older pages: its own pages are there, the others are untouched. */
  lemma {:induction false} UnitResult(t: Table, unit: Unit, n: nat, id: string)
    requires CompiledAt(unit, n)
    requires forall k :: k in t ==> t[k].version < n || forall i :: 0 <= i < |unit| ==> unit[i].id != k
    ensures var r := AppliedUnit(t, unit);
            if Has(unit, id) then id in r && r[id].id == id && r[id] in unit
            else (id in r <==> id in t) && (id in t ==> r[id] == t[id])
    decreases |unit|
  {
    if unit != [] {
      var rest := unit[1..];
      assert forall i :: 0 <= i < |rest| ==> rest[i] == unit[i + 1];
      assert CompiledAt(rest, n);
      UnitResult(Upserted(t, unit[0]), rest, n, id);
      if unit[0].id == id {
        assert !Has(rest, id);
      } else {
        assert Has(unit, id) ==> Has(rest, id) by {
          if Has(unit, id) {
            var i :| 0 <= i < |unit| && unit[i].id == id;
            assert rest[i - 1].id == id;
          }
        }
      }
    }
  }

  /** The index is a fold of the ledger: under each id, the page of the last event that has one. */
  lemma {:induction false} FoldedIsLatest(ledger: seq<Unit>, n: nat, id: string)
    requires n <= |ledger| && WellCompiled(ledger)
    ensures var t, k := Folded(ledger, n), LatestUnit(ledger, n, id);
            && (id in t <==> k > 0)
            && (id in t ==> t[id].id == id && t[id].version == k && t[id] in ledger[k - 1])
    decreases n
  {
    if n > 0 {
      var t := Folded(ledger, n - 1);
      forall k | k in t
        ensures t[k].version < n
      {
        FoldedIsLatest(ledger, n - 1, k);
      }
      assert CompiledAt(ledger[n - 1], n);
      UnitResult(t, ledger[n - 1], n, id);
      FoldedIsLatest(ledger, n - 1, id);
    }
  }

  lemma {:induction false} StaleUnitIsNothing(t: Table, unit: Unit)
    requires forall i :: 0 <= i < |unit| ==> Upserted(t, unit[i]) == t
    ensures AppliedUnit(t, unit) == t
    decreases |unit|
  {
    if unit != [] {
      assert forall i :: 0 <= i < |unit| - 1 ==> unit[1..][i] == unit[i + 1];
      StaleUnitIsNothing(t, unit[1..]);
    }
  }

  lemma OnePageOfAnId(unit: Unit, n: nat, i: nat, j: nat)
    requires CompiledAt(unit, n) && i < |unit| && j < |unit| && unit[i].id == unit[j].id
    ensures unit[i] == unit[j]
  {
  }

  /** Applying an event the index already covers changes nothing. */
  lemma ReapplyingIsNothing(ledger: seq<Unit>, n: nat, k: nat)
    requires 0 < k <= n <= |ledger| && WellCompiled(ledger)
    ensures AppliedUnit(Folded(ledger, n), ledger[k - 1]) == Folded(ledger, n)
  {
    hide Folded;
    var t, unit := Folded(ledger, n), ledger[k - 1];
    assert CompiledAt(unit, k);
    forall i | 0 <= i < |unit|
      ensures Upserted(t, unit[i]) == t
    {
      var id := unit[i].id;
      FoldedIsLatest(ledger, n, id);
      var last := LatestUnit(ledger, n, id);
      assert Has(unit, id);
      assert last >= k;
      if last == k {
        var j :| 0 <= j < |ledger[last - 1]| && ledger[last - 1][j] == t[id];
        OnePageOfAnId(unit, k, i, j);
      }
    }
    StaleUnitIsNothing(t, unit);
  }

  lemma {:induction false} FoldedOfLonger(ledger: seq<Unit>, more: seq<Unit>, n: nat)
    requires n <= |ledger|
    ensures Folded(ledger + more, n) == Folded(ledger, n)
    decreases n
  {
    if n > 0 { FoldedOfLonger(ledger, more, n - 1); }
  }

  // ---- the store ----

  class Index {
    var pages: Table
    var marks: map<string, Mark>
    var open: bool

    constructor ()
      ensures pages == map[] && marks == map[] && open
    {
      pages, marks, open := map[], map[], true;
    }

    function Watermark(session: string): nat
      reads this`marks
    {
      if session in marks then marks[session].seqNo else 0
    }

    /** One transaction: every page and the watermark, or an error and nothing.  The watermark
        neither skips an event nor moves back. */
    method ApplyWithWatermark(unit: Unit, session: string, seqNo: nat, pageVersion: nat, fails: bool) returns (err: Option<IndexError>)
      modifies this
      ensures open == old(open)
      ensures err == None <==>
                open && !fails && (session != "" && seqNo > 0 ==> seqNo <= old(Watermark(session)) + 1)
                && forall i :: 0 <= i < |unit| ==> ValidPage(unit[i])
      ensures err == None ==> pages == AppliedUnit(old(pages), unit)
      ensures err == None && session != "" && seqNo > 0 ==>
                Watermark(session) == (if seqNo > old(Watermark(session)) then seqNo else old(Watermark(session)))
                && forall s :: s != session ==> Watermark(s) == old(Watermark(s))
      ensures err == None && (session == "" || seqNo == 0) ==> marks == old(marks)
      ensures err != None ==> pages == old(pages) && marks == old(marks)
      ensures (err == Some(Closed)) <==> !open
    {
      if !open {
        return Some(Closed);
      }
      var tracked := session != "" && seqNo > 0;
      if tracked && seqNo > Watermark(session) + 1 {
        return Some(Gap);
      }
      var table := pages;
      var i := 0;
      while i < |unit|
        invariant 0 <= i <= |unit|
        invariant forall j :: 0 <= j < i ==> ValidPage(unit[j])
        invariant AppliedUnit(table, unit[i..]) == AppliedUnit(pages, unit)
        invariant pages == old(pages) && marks == old(marks) && open
      {
        if !ValidPage(unit[i]) {
          return Some(Malformed);
        }
        assert unit[i..][0] == unit[i] && unit[i..][1..] == unit[i + 1..];
        table := Upserted(table, unit[i]);
        i := i + 1;
      }
      if fails {
        return Some(StoreFailed);
      }
      if tracked && seqNo >= Watermark(session) {
        marks := marks[session := Mark(seqNo, pageVersion)];
      }
      pages := table;
      err := None;
    }
  }

  // ---- synchronous maintenance ----

  /** A ledger and the index that follows it, on the append path. */
  class IndexedLedger {
    const session: string
    const index: Index
    var ledger: seq<Unit>
    var indexErr: Option<IndexError>

    ghost predicate Valid()
      reads this, index
    {
      && session != "" && WellCompiled(ledger)
      && index.Watermark(session) <= |ledger|
      && index.pages == Folded(ledger, index.Watermark(session))
    }

    constructor (session: string)
      requires session != ""
      ensures Valid() && fresh(index) && ledger == [] && this.session == session
    {
      this.session := session;
      index := new Index();
      ledger, indexErr := [], None;
    }

    /** One event's pages.  The given failures stand for whatever may go wrong in compiling or storing. */
    method CompileAndApply(n: nat, fails: bool) returns (err: Option<IndexError>)
      requires Valid() && 0 < n <= |ledger|
      modifies index
      ensures Valid()
      ensures err == None ==> index.Watermark(session) == if n > old(index.Watermark(session)) then n else old(index.Watermark(session))
      ensures err != None ==> index.Watermark(session) == old(index.Watermark(session))
      ensures err == None <==> index.open && !fails && n <= old(index.Watermark(session)) + 1
      ensures index.open == old(index.open)
    {
      hide WellCompiled, AppliedUnit;
      ghost var w := index.Watermark(session);
      assert CompiledAt(ledger[n - 1], n) by { UnitOf(ledger, n); }
      err := index.ApplyWithWatermark(ledger[n - 1], session, n, n, fails);
      if err == None {
        if n <= w {
          ReapplyingIsNothing(ledger, w, n);
        }
      }
    }

    method RepairIndexFromLedger(fails: nat -> bool) returns (err: Option<IndexError>)
      requires Valid()
      modifies index
      ensures Valid() && index.open == old(index.open)
      ensures index.Watermark(session) >= old(index.Watermark(session))
      ensures err == None ==> index.Watermark(session) == |ledger|
      ensures index.open && (forall n :: !fails(n)) ==> err == None
    {
      if !index.open {
        return Some(Closed);
      }
      var mark := index.Watermark(session);
      var n := 0;
      while n < |ledger|
        invariant 0 <= n <= |ledger| && Valid() && index.open == old(index.open)
        invariant index.Watermark(session) == if n <= mark then mark else n
      {
        n := n + 1;
        if n > mark {
          err := CompileAndApply(n, fails(n));
          if err != None {
            return;
          }
        }
      }
      err := None;
    }

    /** After an append: either the index has caught up with the whole ledger, or an error is on record. */
    method IndexAfterEvent(unreadable: bool, fails: bool, repairFails: nat -> bool)
      requires Valid() && ledger != []
      modifies index, this`indexErr
      ensures Valid()
      ensures indexErr == None ==> index.Watermark(session) == |ledger|
      ensures index.Watermark(session) >= old(index.Watermark(session))
    {
      var n := |ledger|;
      if unreadable || !index.open {
        indexErr := Some(StoreFailed);
        return;
      }
      var mark := index.Watermark(session);
      if n <= mark {
        return;
      }
      if n != mark + 1 {
        indexErr := RepairIndexFromLedger(repairFails);
        return;
      }
      var err := CompileAndApply(n, fails);
      if err != None {
        var repairErr := RepairIndexFromLedger(repairFails);
        if repairErr != None {
          indexErr := repairErr;
          return;
        }
      }
      indexErr := None;
    }

    method Append(unit: Unit)
      requires Valid() && CompiledAt(unit, |ledger| + 1)
      modifies this`ledger
      ensures Valid() && ledger == old(ledger) + [unit]
    {
      FoldedOfLonger(ledger, [unit], index.Watermark(session));
      ledger := ledger + [unit];
    }
  }

  lemma UnitOf(ledger: seq<Unit>, n: nat)
    requires WellCompiled(ledger) && 0 < n <= |ledger|
    ensures CompiledAt(ledger[n - 1], n)
  {
  }
}
