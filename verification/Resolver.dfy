/** Page faults: what a fault on a record returns does not depend on the page cache. */
module Resolver {
  import opened Text
  import Records
  import Printing
  import Quoting
  import Parsing
  import RoundTrip
  import ReadingBack
  import opened Pages
  import S = Snapshots
  import E = Eligibility
  import D = Descriptors
  import opened Coherence
  import opened WorkingStore
  import R = Residency
  import Admission

  const PageMiss := "PAGE_MISS"

  /** The renderer: how failures are laid out, what counts as a token, what prints as itself. */
  datatype Renderer = Renderer(failureDetail: Records.Record -> string, tokens: string -> nat, printable: Quoting.Printable)

  // ---- the page of a record, from the authoritative stores alone ----

  function ScopeText(scope: S.ScopeName): string {
    match scope
    case NoScope => ""
    case GlobalScope => "global"
    case RepoScope => "repo"
    case BranchScope => "branch"
    case TaskScope => "task"
    case FileScope => "file"
    case UnknownScope => "unknown"
  }

  function BindingOf(s: S.Snapshot, id: string): Option<S.Binding> {
    if S.Key(S.RecordTarget, id) in s.bindings then Some(s.bindings[S.Key(S.RecordTarget, id)])
    else if S.Key(S.PageTarget, id) in s.bindings then Some(s.bindings[S.Key(S.PageTarget, id)])
    else None
  }

  function CurrentRecordPage(s: S.Snapshot, id: string, r: Records.Record, render: Renderer): Page {
    var body := if r.Failure? then render.failureDetail(r) else Printing.RecordsText([r], render.printable);
    var page := Page(id, 0, "", "", "", 0, "", "", "", "", if r.Failure? then r.err else "", body, [id], [], 0, 0, false, false);
    match BindingOf(s, id)
    case None => page
    case Some(b) =>
      page.(scope := ScopeText(b.scope), branch := b.at.branch, commit := b.at.commit, paths := b.paths,
            digest := b.digest, scopeEpoch := D.Generation(b))
  }

  function JoinWords(words: seq<string>): string {
    if words == [] then "" else if |words| == 1 then words[0] else words[0] + " " + JoinWords(words[1..])
  }

  function TrimBudget(text: string, budget: nat, render: Renderer): string {
    if render.tokens(text) <= budget || |Fields(text)| <= budget then text
    else JoinWords(Fields(text)[..budget]) + " …"
  }

  /** What a fault on a record returns when there is no page cache at all. */
  function FaultText(w: Working, s: S.Snapshot, id: string, budget: nat, render: Renderer): string
    requires id in w.byId
  {
    if id == "" || !E.RecordEligible(s, id) then PageMiss
    else TrimBudget(ServeableText(CurrentRecordPage(s, id, w.byId[id], render)), budget, render)
  }

  /** A resident that matches the current page serves the same text. */
  lemma MatchingServesTheSame(resident: Page, expected: Page)
    requires CurrentMatches(resident, expected)
    ensures ServeableText(resident) == ServeableText(expected)
  {
  }

  // ---- what that text is ----

  /** What the budget leaves of a text: all of it if it fits by tokens or by words, otherwise exactly its
      first words and a mark. */
  lemma BudgetLaw(text: string, budget: nat, render: Renderer)
    ensures var cut := TrimBudget(text, budget, render);
            if render.tokens(text) <= budget || |Fields(text)| <= budget then cut == text
            else Fields(cut) == Fields(text)[..budget] + ["…"]
  {
    hide Fields;
    if render.tokens(text) > budget && |Fields(text)| > budget {
      ReadingBack.FieldsAreTokens(text);
      WordsAreRead(Fields(text)[..budget]);
    }
  }

  lemma {:induction false} WordsAreRead(words: seq<string>)
    requires forall w :: w in words ==> Token(w)
    ensures Fields(JoinWords(words) + " …") == words + ["…"]
  {
    hide Fields, IsSpace, HasSpace;
    MarkIsToken();
    if words == [] {
      assert JoinWords(words) + " …" == " " + "…" && "…" + "" == "…";
      ReadingBack.FieldsOfPadded("…");
      ReadingBack.FieldsOfFirst("…", "");
      ReadingBack.FieldsOfNothing();
      assert Fields("…") == ["…"] + [] == words + ["…"];
    } else {
      var w, rest := words[0], words[1..];
      WordsAreRead(rest);
      assert words == [w] + rest;
      assert Fields(w + " " + (if rest == [] then "…" else JoinWords(rest) + " …")) == [w] + Fields(if rest == [] then "…" else JoinWords(rest) + " …") by {
        var tail := if rest == [] then "…" else JoinWords(rest) + " …";
        BlankIsSpace();
        assert w + " " + tail == w + (" " + tail);
        ReadingBack.FieldsOfFirst(w, " " + tail);
        ReadingBack.FieldsOfPadded(tail);
      }
      if rest == [] {
        assert JoinWords(words) + " …" == w + " " + "…";
        assert JoinWords(rest) + " …" == " " + "…";
        ReadingBack.FieldsOfPadded("…");
        assert rest + ["…"] == ["…"] && [w] + ["…"] == words + ["…"];
      } else {
        assert JoinWords(words) + " …" == w + " " + (JoinWords(rest) + " …");
      }
    }
  }

  lemma MarkIsToken()
    ensures Token("…")
  {
  }

  lemma BlankIsSpace()
    ensures IsSpace(' ')
  {
  }

  /** The page built from a record carries its printed text, or, for a failure, its detail and error. */
  lemma CurrentPageText(s: S.Snapshot, id: string, r: Records.Record, render: Renderer)
    ensures ServeableText(CurrentRecordPage(s, id, r, render))
         == if !r.Failure? then Printing.RecordsText([r], render.printable)
            else if render.failureDetail(r) != "" then render.failureDetail(r) else r.err
    ensures CurrentRecordPage(s, id, r, render).id == id
  {
    hide Printing.RecordsText, D.Generation, ScopeText;
    if !r.Failure? { PrintedIsNotEmpty(r, render.printable); }
  }

  lemma PrintedIsNotEmpty(r: Records.Record, printable: Quoting.Printable)
    ensures Printing.RecordsText([r], printable) != ""
  {
    hide Printing.FieldLines, Printing.HeaderLine, Printing.BodyFields;
    assert Printing.RecordLines(r, printable) != [];
  }

  /** A well-formed record reads back from what a fault on it prints. */
  lemma PrintedReadsBack(r: Records.Record, printable: Quoting.Printable)
    requires RoundTrip.WellFormed(r)
    ensures Parsing.ParseText(Printing.RecordsText([r], printable)) == Parsing.Ok([r])
  {
    RoundTrip.ParseUndoesPrint([r], printable);
  }

  /** Only an address whose deciding binding, the record's before the page's, is active is eligible. */
  lemma OnlyActiveIsEligible(s: S.Snapshot, id: string)
    ensures E.RecordEligible(s, id) ==> DecidingIsActive(s, id)
  {
    hide E.Eligible, E.LocallyEligible;
    D.EligibleIsActive(s);
    ActiveIfLocally(s);
  }

  predicate DecidingIsActive(s: S.Snapshot, id: string) {
    if S.Key(S.RecordTarget, id) in s.bindings then s.bindings[S.Key(S.RecordTarget, id)].mark.status == S.Active
    else S.Key(S.PageTarget, id) in s.bindings && s.bindings[S.Key(S.PageTarget, id)].mark.status == S.Active
  }

  lemma ActiveIfLocally(s: S.Snapshot)
    ensures forall k :: k in s.bindings && E.LocallyEligible(s, k) ==> s.bindings[k].mark.status == S.Active
  {
  }

  // ---- the fault ----

  class FaultResolver {
    const state: WorkingState
    const coherence: State
    const hierarchy: R.Hierarchy
    const render: Renderer

    constructor (state: WorkingState, coherence: State, hierarchy: R.Hierarchy, render: Renderer)
      ensures this.state == state && this.coherence == coherence && this.hierarchy == hierarchy && this.render == render
    {
      this.state, this.coherence, this.hierarchy, this.render := state, coherence, hierarchy, render;
    }

    /** For a record the text is the one of no cache, whatever the hierarchy holds and did before.  For
        any other id, only a resident whose body no stale interval has touched is served, and only if
        coherence knows the id as eligible. */
    method ResolvePage(id: string, budget: nat) returns (text: string)
      requires hierarchy.Valid()
      modifies hierarchy
      ensures hierarchy.Valid()
      ensures state.Contents() == old(state.Contents()) && coherence.snapshot == old(coherence.snapshot)
      ensures id in state.byId ==> text == FaultText(state.Contents(), coherence.snapshot, id, budget, render)
      ensures !DecidingIsActive(coherence.snapshot, id) || !E.RecordEligible(coherence.snapshot, id) || id == "" ==>
                text == PageMiss && hierarchy.T() == old(hierarchy.T())
      ensures id in state.byId && id != "" && E.RecordEligible(coherence.snapshot, id) ==>
                var r := state.byId[id];
                if r.Failure? then
                  var told := if render.failureDetail(r) != "" then render.failureDetail(r) else r.err;
                  text == TrimBudget(told, budget, render) && (render.tokens(told) <= budget ==> text == told)
                else
                  var printed := Printing.RecordsText([r], render.printable);
                  && text == TrimBudget(printed, budget, render) && (render.tokens(printed) <= budget ==> text == printed)
                  && (RoundTrip.WellFormed(r) && render.tokens(printed) <= budget ==> Parsing.ParseText(text) == Parsing.Ok([r]))
      ensures id !in state.byId ==>
                text == PageMiss
                || (E.RecordEligible(coherence.snapshot, id) && id in hierarchy.installed && id !in hierarchy.tainted
                    && text == TrimBudget(ServeableText(hierarchy.installed[id]), budget, render))
    {
      hide R.Hierarchy.Valid, E.RecordEligible, TrimBudget, CurrentMatches, ServeableText, CurrentRecordPage,
        RoundTrip.WellFormed, Parsing.ParseText, Printing.RecordsText, DecidingIsActive;
      OnlyActiveIsEligible(coherence.snapshot, id);
      if id == "" {
        return PageMiss;
      }
      if id in state.byId {
        if !E.RecordEligible(coherence.snapshot, id) {
          return PageMiss;
        }
        RecordIsServed(coherence.snapshot, id, state.byId[id], budget, render);
        var page := CurrentRecordPage(coherence.snapshot, id, state.byId[id], render);
        var hit := hierarchy.LookupAndUseIfCurrent(page);
        if hit != Admission.None {
          MatchingServesTheSame(hit.value.0, page);
          return TrimBudget(ServeableText(hit.value.0), budget, render);
        }
        var refused := hierarchy.AdmitDemand(page);
        return TrimBudget(ServeableText(page), budget, render);
      }
      if !E.RecordEligible(coherence.snapshot, id) {
        return PageMiss;
      }
      var hit := hierarchy.Use(id);
      if hit != Admission.None {
        var body := ServeableText(hit.value.0);
        ServedIsInstalled(hit.value.0, hierarchy.installed[id]);
        if body != "" {
          return TrimBudget(body, budget, render);
        }
      }
      text := PageMiss;
    }
  }

  lemma ServedIsInstalled(page: Page, installed: Page)
    requires page.body == installed.body && page.summary == installed.summary
    ensures ServeableText(page) == ServeableText(installed)
  {
  }

  /** What a fault on an eligible record serves, in the record's own terms. */
  lemma RecordIsServed(s: S.Snapshot, id: string, r: Records.Record, budget: nat, render: Renderer)
    ensures var text := TrimBudget(ServeableText(CurrentRecordPage(s, id, r, render)), budget, render);
            if r.Failure? then
              var told := if render.failureDetail(r) != "" then render.failureDetail(r) else r.err;
              text == TrimBudget(told, budget, render) && (render.tokens(told) <= budget ==> text == told)
            else
              var printed := Printing.RecordsText([r], render.printable);
              && text == TrimBudget(printed, budget, render) && (render.tokens(printed) <= budget ==> text == printed)
              && (RoundTrip.WellFormed(r) && render.tokens(printed) <= budget ==> Parsing.ParseText(text) == Parsing.Ok([r]))
  {
    hide TrimBudget, ServeableText, CurrentRecordPage, RoundTrip.WellFormed, Parsing.ParseText, Printing.RecordsText;
    CurrentPageText(s, id, r, render);
    BudgetLaw(if !r.Failure? then Printing.RecordsText([r], render.printable)
              else if render.failureDetail(r) != "" then render.failureDetail(r) else r.err, budget, render);
    if RoundTrip.WellFormed(r) { PrintedReadsBack(r, render.printable); }
  }
}
