/** Records to text: the canonical form, built piece by piece in one buffer. */
module Printing {
  import opened Text
  import opened Quoting
  import opened Records

  datatype Field = Field(key: string, value: string, prefer: bool)

  // ---- what is written ----

  predicate NeedsQuotes(value: string) {
    ContainsAny(value, " \t\r\n\"'`")
  }

  predicate BackquoteFits(key: string, value: string) {
    (key == "cmd" || Contains(value, '"')) && !ContainsAny(value, "`\r\n")
  }

  /** The value as it stands after the colon. */
  function Rendered(f: Field, printable: Printable): string {
    if f.prefer || NeedsQuotes(f.value) then
      if BackquoteFits(f.key, f.value) then "`" + f.value + "`" else Quote(f.value, printable)
    else f.value
  }

  function FieldLine(f: Field, printable: Printable): string {
    f.key + ": " + Rendered(f, printable)
  }

  function FieldLines(fields: seq<Field>, printable: Printable): seq<string> {
    if fields == [] then []
    else (if fields[0].value == "" then [] else [FieldLine(fields[0], printable)]) + FieldLines(fields[1..], printable)
  }

  function AttrTokens(key: string, value: string): seq<string> {
    if value == "" then [] else [key + "=" + value]
  }

  /** What follows the kind in a record's header. */
  function HeaderTokens(r: Record): seq<string> {
    match r
    case Task(id, phase, priority, _, _, _, _) => [id] + AttrTokens("phase", phase) + AttrTokens("priority", priority)
    case Constraint(id, strength, source, _, _) => [id, strength] + AttrTokens("source", source)
    case Failure(id, _, _, _, _, _) => [id]
    case Decision(id, _, _, _, _) => [id]
    case Avoid(id, reason, _, _) => [id] + AttrTokens("reason", reason)
    case Assumption(id, status, _, _) => [id] + AttrTokens("status", status)
    case Invalidated(id, _, _) => [id]
    case NextStep(_, _, _) => []
    case PageRecord(id, kind, tier, _, _, _, _, _) => [id] + AttrTokens("kind", kind) + AttrTokens("tier", tier)
    case Fault(id, _, _) => if id != "" then [id] else []
  }

  function BodyFields(r: Record): seq<Field> {
    match r
    case Task(_, _, _, goal, branch, commit, dirty) =>
      [Field("goal", goal, false), Field("branch", branch, false), Field("commit", commit, false), Field("dirty", dirty, false)]
    case Constraint(_, _, _, text, scope) =>
      [Field("text", text, true), Field("scope", scope, false)]
    case Failure(_, cmd, exit, err, fileHint, raw) =>
      [Field("cmd", cmd, true), Field("exit", Itoa(exit), false), Field("err", err, true),
       Field("file_hint", fileHint, false), Field("raw", raw, false)]
    case Decision(_, chosen, because, refs, scope) =>
      [Field("chosen", chosen, true), Field("because", because, true), Field("refs", refs, false), Field("scope", scope, false)]
    case Avoid(_, _, text, ref) =>
      [Field("text", text, true), Field("ref", ref, false)]
    case Assumption(_, _, text, evidence) =>
      [Field("text", text, true), Field("evidence", evidence, false)]
    case Invalidated(_, target, reason) =>
      [Field("target", target, false), Field("reason", reason, true)]
    case NextStep(action, target, question) =>
      [Field("action", action, false), Field("target", target, false), Field("question", question, true)]
    case PageRecord(_, _, _, summary, refs, scope, branch, _) =>
      [Field("summary", summary, true), Field("refs", refs, false), Field("scope", scope, false), Field("branch", branch, false)]
    case Fault(_, kind, target) =>
      [Field("kind", kind, false), Field("target", target, false)]
  }

  function HeaderLine(r: Record): string {
    "@" + KindName(r.RecordKind()) + JoinTokens(HeaderTokens(r))
  }

  function RecordLines(r: Record, printable: Printable): seq<string> {
    [HeaderLine(r)] + FieldLines(BodyFields(r), printable)
  }

  function RecordText(r: Record, printable: Printable): string {
    JoinLines(RecordLines(r, printable))
  }

  /** Records one after the other, a blank line between two. */
  function RecordsText(recs: seq<Record>, printable: Printable): string {
    if recs == [] then ""
    else if |recs| == 1 then RecordText(recs[0], printable)
    else RecordsText(recs[..|recs| - 1], printable) + "\n" + RecordText(recs[|recs| - 1], printable)
  }

  // ---- how it is written ----

  class Builder {
    var text: string

    constructor ()
      ensures text == ""
    {
      text := "";
    }

    method Write(s: string)
      modifies this
      ensures text == old(text) + s
    {
      text := text + s;
    }
  }

  method WriteAttr(b: Builder, key: string, value: string)
    modifies b
    ensures b.text == old(b.text) + JoinTokens(AttrTokens(key, value))
  {
    if value == "" {
      return;
    }
    b.Write(" ");
    b.Write(key);
    b.Write("=");
    b.Write(value);
    assert JoinTokens([key + "=" + value]) == " " + (key + "=" + value);
  }

  method WriteBody(b: Builder, key: string, value: string, prefer: bool, printable: Printable)
    modifies b
    ensures b.text == old(b.text) + JoinLines(FieldLines([Field(key, value, prefer)], printable))
  {
    hide JoinLines, FieldLines, Quote, ContainsAny;
    OneFieldText(Field(key, value, prefer), printable);
    if value == "" {
      return;
    }
    var rendered := value;
    if prefer || ContainsAny(value, " \t\r\n\"'`") {
      if (key == "cmd" || Contains(value, '"')) && !ContainsAny(value, "`\r\n") {
        rendered := "`" + value + "`";
      } else {
        rendered := Quote(value, printable);
      }
    }
    b.Write(key + ": " + rendered + "\n");
  }

  lemma OneFieldText(f: Field, printable: Printable)
    ensures JoinLines(FieldLines([f], printable)) == if f.value == "" then "" else FieldLine(f, printable) + "\n"
  {
    hide FieldLine;
    assert [f][1..] == [];
    assert FieldLines([f], printable) == if f.value == "" then [] else [FieldLine(f, printable)];
    if f.value != "" {
      assert [FieldLine(f, printable)][1..] == [];
      assert JoinLines([FieldLine(f, printable)]) == FieldLine(f, printable) + "\n" + "";
    }
  }

  lemma {:induction false} FieldLinesAppend(a: seq<Field>, c: seq<Field>, printable: Printable)
    ensures FieldLines(a + c, printable) == FieldLines(a, printable) + FieldLines(c, printable)
  {
    if a == [] {
      assert a + c == c;
    } else {
      assert (a + c)[1..] == a[1..] + c && (a + c)[0] == a[0];
      FieldLinesAppend(a[1..], c, printable);
    }
  }

  /** The text of some fields, taken one field further. */
  lemma FieldTextStep(fields: seq<Field>, n: nat, printable: Printable)
    requires n < |fields|
    ensures JoinLines(FieldLines(fields[..n + 1], printable))
         == JoinLines(FieldLines(fields[..n], printable)) + JoinLines(FieldLines([fields[n]], printable))
  {
    assert fields[..n + 1] == fields[..n] + [fields[n]];
    FieldLinesAppend(fields[..n], [fields[n]], printable);
    JoinLinesAppend(FieldLines(fields[..n], printable), FieldLines([fields[n]], printable));
  }

  lemma {:induction false} JoinTokensAppend(a: seq<string>, c: seq<string>)
    ensures JoinTokens(a + c) == JoinTokens(a) + JoinTokens(c)
  {
    if a == [] {
      assert a + c == c;
    } else {
      assert (a + c)[1..] == a[1..] + c && (a + c)[0] == a[0];
      JoinTokensAppend(a[1..], c);
    }
  }

  /** A record's tag and its id. */
  method WriteTag(b: Builder, kind: Kind, id: string)
    modifies b
    ensures b.text == old(b.text) + ("@" + KindName(kind) + JoinTokens([id]))
  {
    assert [id][1..] == [] && JoinTokens([id]) == " " + id + "";
    b.Write("@" + KindName(kind) + " " + id);
  }

  method WriteTagAndAttr(b: Builder, kind: Kind, id: string, key: string, value: string)
    modifies b
    ensures b.text == old(b.text) + ("@" + KindName(kind) + JoinTokens([id] + AttrTokens(key, value)))
  {
    hide JoinTokens, AttrTokens;
    WriteTag(b, kind, id);
    WriteAttr(b, key, value);
    JoinTokensAppend([id], AttrTokens(key, value));
  }

  method WriteTagAndAttrs(b: Builder, kind: Kind, id: string, key: string, value: string, key2: string, value2: string)
    modifies b
    ensures b.text == old(b.text) + ("@" + KindName(kind) + JoinTokens([id] + AttrTokens(key, value) + AttrTokens(key2, value2)))
  {
    hide JoinTokens, AttrTokens;
    WriteTagAndAttr(b, kind, id, key, value);
    WriteAttr(b, key2, value2);
    JoinTokensAppend([id] + AttrTokens(key, value), AttrTokens(key2, value2));
  }

  method WriteConstraintTag(b: Builder, id: string, strength: string, source: string)
    modifies b
    ensures b.text == old(b.text) + ("@" + KindName(KConstraint) + JoinTokens([id, strength] + AttrTokens("source", source)))
  {
    hide JoinTokens, AttrTokens;
    WriteTag(b, KConstraint, id);
    b.Write(" " + strength);
    OneToken(strength);
    JoinTokensAppend([id], [strength]);
    assert [id] + [strength] == [id, strength];
    WriteAttr(b, "source", source);
    JoinTokensAppend([id, strength], AttrTokens("source", source));
  }

  method WriteHeader(b: Builder, r: Record)
    modifies b
    ensures b.text == old(b.text) + (HeaderLine(r) + "\n")
  {
    hide JoinTokens, AttrTokens, KindName;
    ghost var start := b.text;
    NoTokens();
    match r {
      case Task(id, phase, priority, _, _, _, _) => WriteTagAndAttrs(b, KTask, id, "phase", phase, "priority", priority);
      case Constraint(id, strength, source, _, _) => WriteConstraintTag(b, id, strength, source);
      case Failure(id, _, _, _, _, _) => WriteTag(b, KFailure, id);
      case Decision(id, _, _, _, _) => WriteTag(b, KDecision, id);
      case Avoid(id, reason, _, _) => WriteTagAndAttr(b, KAvoid, id, "reason", reason);
      case Assumption(id, status, _, _) => WriteTagAndAttr(b, KAssumption, id, "status", status);
      case Invalidated(id, _, _) => WriteTag(b, KInvalidated, id);
      case NextStep(_, _, _) => b.Write("@" + KindName(KNext));
      case PageRecord(id, pageKind, tier, _, _, _, _, _) => WriteTagAndAttrs(b, KPage, id, "kind", pageKind, "tier", tier);
      case Fault(id, _, _) =>
        if id != "" {
          WriteTag(b, KFault, id);
        } else {
          b.Write("@" + KindName(KFault));
        }
    }
    assert b.text == start + HeaderLine(r);
    b.Write("\n");
  }

  lemma OneToken(t: string)
    ensures JoinTokens([t]) == " " + t
  {
    assert [t][1..] == [] && JoinTokens([t]) == " " + t + "";
  }

  lemma NoTokens()
    ensures JoinTokens([]) == ""
  {
  }

  method WriteRecord(b: Builder, r: Record, printable: Printable)
    modifies b
    ensures b.text == old(b.text) + RecordText(r, printable)
  {
    hide JoinLines, FieldLines, HeaderLine, BodyFields;
    WriteHeader(b, r);
    ghost var headed := b.text;
    var fields := BodyFields(r);
    var i := 0;
    assert fields[..0] == [];
    NoFields(printable);
    while i < |fields|
      invariant 0 <= i <= |fields|
      invariant b.text == headed + JoinLines(FieldLines(fields[..i], printable))
    {
      FieldTextStep(fields, i, printable);
      WriteBody(b, fields[i].key, fields[i].value, fields[i].prefer, printable);
      i := i + 1;
    }
    assert fields[..i] == fields;
    RecordTextParts(r, printable);
  }

  lemma NoFields(printable: Printable)
    ensures JoinLines(FieldLines([], printable)) == ""
  {
  }

  lemma RecordTextParts(r: Record, printable: Printable)
    ensures RecordText(r, printable) == (HeaderLine(r) + "\n") + JoinLines(FieldLines(BodyFields(r), printable))
  {
    hide HeaderLine, BodyFields, FieldLines;
    var lines := FieldLines(BodyFields(r), printable);
    assert RecordLines(r, printable)[1..] == lines;
  }

  /** The text of some records, taken one record further. */
  lemma RecordsTextStep(recs: seq<Record>, n: nat, printable: Printable)
    requires n < |recs|
    ensures RecordsText(recs[..n + 1], printable)
         == RecordsText(recs[..n], printable) + (if n > 0 then "\n" else "") + RecordText(recs[n], printable)
  {
    hide RecordText;
    var some := recs[..n + 1];
    assert some[..|some| - 1] == recs[..n] && some[|some| - 1] == recs[n];
  }

  method Serialize(recs: seq<Record>, printable: Printable) returns (text: string)
    ensures text == RecordsText(recs, printable)
  {
    hide RecordsText, RecordText;
    var b := new Builder();
    var i := 0;
    assert recs[..0] == [];
    NoRecords(printable);
    while i < |recs|
      invariant 0 <= i <= |recs|
      invariant b.text == RecordsText(recs[..i], printable)
    {
      RecordsTextStep(recs, i, printable);
      if i > 0 {
        b.Write("\n");
      }
      WriteRecord(b, recs[i], printable);
      i := i + 1;
    }
    assert recs[..i] == recs;
    text := b.text;
  }

  lemma NoRecords(printable: Printable)
    ensures RecordsText([], printable) == ""
  {
  }
}
