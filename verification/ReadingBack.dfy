/** Which records come back from their printed text: exactly the well-formed ones.  Whatever is read at
    all is plain, a plain record is read from its own lines, and only a well-formed one as itself. */
module ReadingBack {
  import opened Text
  import opened Quoting
  import opened Records
  import opened Printing
  import opened Parsing
  import opened RoundTrip

  // ---- what the parser can yield at all ----

  /** Ids are single tokens without an equals sign, attributes have no blanks, the exit status is a
      64-bit integer and no page is stale. */
  predicate Plain(r: Record) {
    match r
    case Task(id, phase, priority, _, _, _, _) => IdToken(id) && Attr(phase) && Attr(priority)
    case Constraint(id, strength, source, _, _) => IdToken(id) && Attr(strength) && Attr(source)
    case Failure(id, _, exit, _, _, _) => IdToken(id) && MinInt64 <= exit <= MaxInt64
    case Decision(id, _, _, _, _) => IdToken(id)
    case Avoid(id, reason, _, _) => IdToken(id) && Attr(reason)
    case Assumption(id, status, _, _) => IdToken(id) && Attr(status)
    case Invalidated(id, _, _) => IdToken(id)
    case NextStep(_, _, _) => true
    case PageRecord(id, kind, tier, _, _, _, _, stale) => IdToken(id) && Attr(kind) && Attr(tier) && !stale
    case Fault(id, _, _) => id == "" || IdToken(id)
  }

  predicate PlainAttrs(attrs: Attrs) {
    forall k :: k in attrs ==> Attr(attrs[k])
  }

  predicate PlainHeader(h: Header) {
    (h.id == "" || IdToken(h.id)) && PlainAttrs(h.attrs)
  }

  predicate PlainState(st: State) {
    && (forall r :: r in st.done ==> Plain(r))
    && (st.current.Some? ==> PlainHeader(st.current.value.header))
  }

  lemma {:induction false} FieldsAreTokens(s: string)
    ensures forall f :: f in Fields(s) ==> Token(f)
    decreases |s|
  {
    var t := TrimLeft(s);
    if t != "" {
      TrimLeftStarts(s);
      var first := t[..TokenLength(t)];
      assert Token(first);
      FieldsAreTokens(t[TokenLength(t)..]);
      assert Fields(s) == [first] + Fields(t[TokenLength(t)..]);
    }
  }

  lemma {:induction false} AttrsArePlain(tokens: seq<string>)
    requires forall t :: t in tokens ==> Attr(t)
    ensures PlainAttrs(AttrsOf(tokens))
  {
    hide Attr;
    if tokens != [] {
      var front, last := tokens[..|tokens| - 1], tokens[|tokens| - 1];
      AttrsArePlain(front);
      AddedIsPlain(AttrsOf(front), last);
    } else {
      AttrsOfNone();
    }
  }

  lemma AddedIsPlain(attrs: Attrs, token: string)
    requires PlainAttrs(attrs) && Attr(token)
    ensures PlainAttrs(AddAttr(attrs, token))
  {
    hide IsSpace;
    var i := IndexOf(token, '=');
    if i < |token| {
      var v := token[i + 1..];
      assert Attr(v) by {
        forall j | 0 <= j < |v| ensures !IsSpace(v[j]) { assert v[j] == token[i + 1 + j]; }
      }
    }
  }

  lemma HeaderIsPlain(line: string)
    requires HeaderOf(line).Some?
    ensures PlainHeader(HeaderOf(line).value)
  {
    hide Fields, KindNamed, AttrsOf, PlainAttrs, HasSpace;
    var parts := Fields(line);
    FieldsAreTokens(line);
    assert forall t :: t in parts[1..] ==> t in parts;
    AttrsArePlain(parts[1..]);
    if |parts| > 1 {
      assert parts[1] in parts && forall t :: t in parts[2..] ==> t in parts;
      AttrsArePlain(parts[2..]);
    }
  }

  lemma BuildIsPlain(h: Header, body: Attrs)
    requires PlainHeader(h) && Build(h.kind, h.id, h.attrs, body).Ok?
    ensures Plain(Build(h.kind, h.id, h.attrs, body).value)
  {
    hide ParseDigits, IdToken;
    assert Attr("") && Attr("hard") && Attr("soft");
  }

  lemma EmitKeepsPlain(st: State)
    requires PlainState(st) && Emit(st).Ok?
    ensures PlainState(Emit(st).value)
  {
    hide Build, Plain, PlainHeader;
    if st.current.Some? { BuildIsPlain(st.current.value.header, st.current.value.body); }
  }

  lemma StepKeepsPlain(st: State, raw: string, lineNo: nat)
    requires PlainState(st) && Step(st, raw, lineNo).Ok?
    ensures PlainState(Step(st, raw, lineNo).value)
  {
    hide Emit, HeaderOf, BodyLineOf, TrimSpace, TrimReturns, Plain, PlainHeader;
    var line := TrimSpace(TrimReturns(raw));
    if line == "" {
      EmitKeepsPlain(st);
    } else if line[0] == '@' {
      EmitKeepsPlain(st);
      HeaderIsPlain(line);
    }
  }

  lemma {:induction false} StepsKeepPlain(st: State, lines: seq<string>, lineNo: nat)
    requires PlainState(st) && Steps(st, lines, lineNo).Ok?
    ensures PlainState(Steps(st, lines, lineNo).value)
    decreases |lines|
  {
    hide Step, PlainState;
    if lines != [] {
      StepKeepsPlain(st, lines[0], lineNo);
      StepsKeepPlain(Step(st, lines[0], lineNo).value, lines[1..], lineNo + 1);
    }
  }

  /** Whatever the text, every record read from it is plain. */
  lemma ParsedIsPlain(src: string)
    requires ParseText(src).Ok?
    ensures forall r :: r in ParseText(src).value ==> Plain(r)
  {
    hide Steps, Emit, Plain, SplitLines;
    var st := Steps(State([], None), SplitLines(src), 1).value;
    StepsKeepPlain(State([], None), SplitLines(src), 1);
    EmitKeepsPlain(st);
  }

  // ---- how any plain record is read ----

  /** The header a record's first line is read as. */
  function ReadHeader(r: Record): Option<Header> {
    HeaderOf(TrimSpace(TrimReturns(HeaderLine(r))))
  }

  /** Reading the record's own lines gives that record. */
  predicate ReadsAs(r: Record, out: Record) {
    match ReadHeader(r)
    case None => false
    case Some(h) => Build(h.kind, h.id, h.attrs, Body(r)) == Ok(out)
  }

  lemma {:induction false} TrimmingKeepsStart(s: string)
    requires s != "" && !IsSpace(s[0])
    ensures TrimRight(s) != "" && TrimRight(s)[0] == s[0]
  {
    if IsSpace(s[|s| - 1]) { TrimmingKeepsStart(s[..|s| - 1]); }
  }

  lemma {:induction false} ReturnsKeepStart(s: string)
    requires s != "" && s[0] != '\r'
    ensures TrimReturns(s) != "" && TrimReturns(s)[0] == s[0]
  {
    if s[|s| - 1] == '\r' { ReturnsKeepStart(s[..|s| - 1]); }
  }

  lemma HeaderLineStarts(r: Record)
    ensures var line := TrimSpace(TrimReturns(HeaderLine(r))); line != "" && line[0] == '@'
  {
    hide KindName, JoinTokens, HeaderTokens, TrimReturns, TrimRight;
    var line := HeaderLine(r);
    assert line[0] == '@';
    ReturnsKeepStart(line);
    TrimmingKeepsStart(TrimReturns(line));
  }

  lemma HeaderRead(done: seq<Record>, r: Record, lineNo: nat)
    ensures Step(State(done, None), HeaderLine(r), lineNo)
         == match ReadHeader(r)
            case None => Err(lineNo, UnknownKind)
            case Some(h) => Ok(State(done, Some(Open(h, map[], lineNo))))
  {
    hide HeaderLine, HeaderOf, TrimSpace, TrimReturns;
    HeaderLineStarts(r);
  }

  lemma RecordRead(done: seq<Record>, r: Record, printable: Printable, lineNo: nat)
    ensures Steps(State(done, None), RecordLines(r, printable), lineNo)
         == match ReadHeader(r)
            case None => Err(lineNo, UnknownKind)
            case Some(h) => Ok(State(done, Some(Open(h, Body(r), lineNo))))
  {
    hide Step, HeaderLine, FieldLines, BodyFields, Collected, ReadHeader;
    HeaderRead(done, r, lineNo);
    assert RecordLines(r, printable)[1..] == FieldLines(BodyFields(r), printable);
    if ReadHeader(r).Some? {
      KeysArePlain(r);
      FieldsStep(State(done, Some(Open(ReadHeader(r).value, map[], lineNo))), BodyFields(r), printable, lineNo + 1);
    }
  }

  /** Every record but the last is done, each as it is read; the last is still collecting. */
  predicate TextRead(recs: seq<Record>, st: State)
    requires recs != []
  {
    var last := |recs| - 1;
    && |st.done| == last && (forall i :: 0 <= i < last ==> ReadsAs(recs[i], st.done[i]))
    && st.current.Some? && ReadHeader(recs[last]) == Some(st.current.value.header) && st.current.value.body == Body(recs[last])
  }

  lemma EmitsRead(recs: seq<Record>, st: State)
    requires recs != [] && TextRead(recs, st) && Emit(st).Ok?
    ensures var out := Emit(st).value;
            out.current == None && |out.done| == |recs| && forall i :: 0 <= i < |recs| ==> ReadsAs(recs[i], out.done[i])
  {
    hide Build, ReadHeader, Body;
  }

  lemma {:induction false} TextReads(recs: seq<Record>, printable: Printable)
    requires recs != [] && Steps(State([], None), TextLines(recs, printable), 1).Ok?
    ensures TextRead(recs, Steps(State([], None), TextLines(recs, printable), 1).value)
  {
    hide RecordLines, Step, Steps, Emit, ReadsAs, ReadHeader, Body;
    var last := |recs| - 1;
    if last == 0 {
      RecordRead([], recs[0], printable, 1);
    } else {
      var front, head, start := recs[..last], TextLines(recs[..last], printable), State([], None);
      StepsAppend(start, head + [""], RecordLines(recs[last], printable), 1);
      StepsAppend(start, head, [""], 1);
      TextReads(front, printable);
      var mid := Steps(start, head, 1).value;
      BlankStep(mid, 1 + |head|);
      EmitsRead(front, mid);
      RecordRead(Emit(mid).value.done, recs[last], printable, 2 + |head|);
    }
  }

  lemma HeaderLineIsLine(r: Record)
    requires Plain(r)
    ensures OneLine(HeaderLine(r))
  {
    hide KindName, JoinTokens;
    KindTag(r.RecordKind());
    TokensAreLines(r);
    JoinedLines(HeaderTokens(r));
  }

  lemma TokensAreLines(r: Record)
    requires Plain(r)
    ensures forall t :: t in HeaderTokens(r) ==> Attr(t)
  {
    hide HasSpace, AttrTokens, IsSpace;
    match r
    case Task(_, phase, priority, _, _, _, _) => AttrTokensAreLines("phase", phase); AttrTokensAreLines("priority", priority);
    case Constraint(_, _, source, _, _) => AttrTokensAreLines("source", source);
    case Avoid(_, reason, _, _) => AttrTokensAreLines("reason", reason);
    case Assumption(_, status, _, _) => AttrTokensAreLines("status", status);
    case PageRecord(_, kind, tier, _, _, _, _, _) => AttrTokensAreLines("kind", kind); AttrTokensAreLines("tier", tier);
    case _ =>
  }

  lemma AttrTokensAreLines(key: string, value: string)
    requires LowerCase(key) && Attr(value)
    ensures forall t :: t in AttrTokens(key, value) ==> Attr(t)
  {
    hide HasSpace, LowerCase;
    AttrTokensAreTokens(key, value);
    if value != "" { assert Token(AttrTokens(key, value)[0]); }
  }

  lemma {:induction false} JoinedLines(tokens: seq<string>)
    requires forall t :: t in tokens ==> Attr(t)
    ensures OneLine(JoinTokens(tokens))
  {
    if tokens != [] {
      assert tokens[0] in tokens;
      JoinedLines(tokens[1..]);
    }
  }

  /** Each record is read from its own lines, whatever stands around it. */
  lemma RecordsAreReadAlone(recs: seq<Record>, printable: Printable, out: seq<Record>)
    requires (forall r :: r in recs ==> Plain(r)) && ParseText(RecordsText(recs, printable)) == Ok(out)
    ensures |out| == |recs| && forall i :: 0 <= i < |recs| ==> ReadsAs(recs[i], out[i])
  {
    hide Steps, TextLines, JoinLines, Plain, RecordsText, HeaderLine, Emit, ReadsAs, TextRead;
    var lines, start := TextLines(recs, printable), State([], None);
    TextLinesJoin(recs, printable);
    forall i | 0 <= i < |recs| ensures OneLine(HeaderLine(recs[i])) { HeaderLineIsLine(recs[i]); }
    TextLinesAreLines(recs, printable);
    SplitLinesOfJoin(lines, "");
    assert JoinLines(lines) + "" == RecordsText(recs, printable);
    assert SplitLines("") == [""];
    StepsAppend(start, lines, [""], 1);
    if recs == [] {
      NoLines(printable);
      BlankStep(start, 1);
      EmptyEmits();
    } else {
      TextReads(recs, printable);
      var st := Steps(start, lines, 1).value;
      BlankStep(st, 1 + |lines|);
      EmitsRead(recs, st);
      NothingOpenEmits(Emit(st).value);
    }
  }

  lemma EmptyEmits()
    ensures Emit(State([], None)) == Ok(State([], None))
  {
  }

  lemma NothingOpenEmits(st: State)
    requires st.current == None
    ensures Emit(st) == Ok(st)
  {
  }

  // ---- only well-formed records are read as themselves ----

  lemma {:induction false} FieldsOfJoin(tokens: seq<string>)
    requires forall t :: t in tokens ==> Attr(t)
    ensures Fields(JoinTokens(tokens)) == NonEmpty(tokens)
  {
    hide Fields, HasSpace;
    if tokens == [] {
      FieldsOfNothing();
    } else {
      var t, rest := tokens[0], JoinTokens(tokens[1..]);
      assert t in tokens;
      FieldsOfJoin(tokens[1..]);
      assert JoinTokens(tokens) == " " + (t + rest);
      FieldsOfPadded(t + rest);
      if t == "" {
        assert t + rest == rest;
      } else {
        FieldsOfFirst(t, rest);
      }
    }
  }

  function NonEmpty(tokens: seq<string>): seq<string> {
    if tokens == [] then [] else (if tokens[0] == "" then [] else [tokens[0]]) + NonEmpty(tokens[1..])
  }

  lemma FieldsOfNothing()
    ensures Fields("") == []
  {
  }

  lemma FieldsOfPadded(s: string)
    ensures Fields(" " + s) == Fields(s)
  {
    TrimLeftPadding(" ", s);
  }

  lemma FieldsOfFirst(t: string, rest: string)
    requires Token(t) && (rest == "" || IsSpace(rest[0]))
    ensures Fields(t + rest) == [t] + Fields(rest)
  {
    var s := t + rest;
    assert s[0] == t[0] && TrimLeft(s) == s;
    TokenLengthAt(t, rest);
    assert s[..|t|] == t && s[|t|..] == rest;
  }

  /** The header of a record all of whose tokens are good. */
  lemma TokensRead(r: Record)
    requires forall i :: 0 <= i < |HeaderTokens(r)| ==> Token(HeaderTokens(r)[i])
    requires HeaderTokens(r) != [] ==> '=' !in HeaderTokens(r)[0]
    ensures var tokens := HeaderTokens(r);
            ReadHeader(r) == Some(Header(r.RecordKind(), if tokens == [] then "" else tokens[0], if tokens == [] then map[] else AttrsOf(tokens[1..])))
  {
    hide HeaderOf, HeaderTokens, AttrsOf, KindName, JoinTokens, TrimSpace, TrimReturns, Token;
    KindOfNext(r);
    KindTag(r.RecordKind());
    JoinedTokensEdges("@" + KindName(r.RecordKind()), HeaderTokens(r));
    CleanLineStands(HeaderLine(r));
    HeaderReadsBack(r.RecordKind(), HeaderTokens(r));
  }

  /** A token in the place of the strength is recovered only if it is one of the two strengths. */
  lemma StrengthReadsExactly(strength: string, source: string)
    requires Token(strength)
    ensures StrengthOf(AttrsOf([strength] + AttrTokens("source", source))) == strength <==> strength == "hard" || strength == "soft"
  {
    hide AttrTokens, AttrsOf, Token, HasSpace;
    AttrsOfNone();
    LowerCaseIsPlain("source");
    assert [] + [strength] == [strength];
    AttrsOfOneMore([], strength);
    AttrTokensRead([strength], "source", source);
    assert "source" != "hard" && "source" != "strength";
  }

  /** A constraint printed without a strength: the gap is not a token, and the strength reads as soft. */
  lemma MissingStrengthIsSoft(r: Record)
    requires r.Constraint? && r.strength == "" && Plain(r)
    ensures ReadHeader(r).Some? && StrengthOf(ReadHeader(r).value.attrs) == "soft"
  {
    hide AttrTokens, AttrsOf, Fields, TrimSpace, TrimReturns, HasSpace;
    var line := TrimSpace(TrimReturns(HeaderLine(r)));
    GapIsSkipped(r);
    var parts := ["@constraint", r.id] + AttrTokens("source", r.source);
    assert parts[0][1..] == "constraint" && parts[2..] == AttrTokens("source", r.source);
    AttrsOfNone();
    LowerCaseIsPlain("source");
    assert [] + AttrTokens("source", r.source) == AttrTokens("source", r.source);
    AttrTokensRead([], "source", r.source);
    assert "source" != "hard" && "source" != "strength";
  }

  lemma GapIsSkipped(r: Record)
    requires r.Constraint? && r.strength == "" && Plain(r)
    ensures Fields(TrimSpace(TrimReturns(HeaderLine(r)))) == ["@constraint", r.id] + AttrTokens("source", r.source)
  {
    hide Fields, HasSpace, IsSpace, JoinTokens, TrimSpace, TrimReturns;
    var tag, tokens := "@constraint", [r.id, ""] + AttrTokens("source", r.source);
    assert tag == "@" + KindName(KConstraint);
    KindTag(KConstraint);
    assert HeaderLine(r) == tag + JoinTokens(tokens);
    if r.source == "" {
      assert tokens == [r.id] + [""];
      JoinTokensAppend([r.id], [""]);
      OneToken("");
      var line := tag + JoinTokens([r.id]);
      assert HeaderLine(r) == line + " ";
      JoinedTokensEdges(tag, [r.id]);
      TrailingBlank(line);
      FieldsOfTokens(tag, [r.id]);
      assert [tag] + [r.id] == [tag, r.id] + [];
    } else {
      AttrTokenIsToken("source", r.source) by { LowerCaseSource(); }
      var last := "source=" + r.source;
      assert last == "source" + "=" + r.source && tokens == [r.id, "", last];
      JoinedEdges(tag, tokens[..2], last);
      assert tokens[..2] + [last] == tokens;
      CleanLineStands(HeaderLine(r));
      JoinStarts(tokens);
      FieldsOfFirst(tag, JoinTokens(tokens));
      FieldsOfJoin(tokens);
      ThreeTokens(r.id, last);
    }
  }

  lemma LowerCaseSource()
    ensures LowerCase("source")
  {
  }

  lemma TrailingBlank(line: string)
    requires line != "" && CleanEdges(line)
    ensures TrimSpace(TrimReturns(line + " ")) == line
  {
    var s := line + " ";
    assert TrimReturns(s) == s;
    assert s[0] == line[0];
    assert TrimLeft(s) == s;
    assert s[..|s| - 1] == line && s[|s| - 1] == ' ';
    assert TrimRight(s) == TrimRight(line);
  }

  lemma JoinStarts(tokens: seq<string>)
    ensures JoinTokens(tokens) == "" || IsSpace(JoinTokens(tokens)[0])
  {
  }

  lemma JoinedEdges(tag: string, tokens: seq<string>, last: string)
    requires Token(tag) && Token(last)
    ensures CleanEdges(tag + JoinTokens(tokens + [last]))
  {
    hide JoinTokens, IsSpace;
    JoinTokensAppend(tokens, [last]);
    OneToken(last);
    var line := tag + JoinTokens(tokens + [last]);
    assert line[0] == tag[0] && line[|line| - 1] == last[|last| - 1];
  }

  lemma ThreeTokens(first: string, last: string)
    requires first != "" && last != ""
    ensures NonEmpty([first, "", last]) == [first, last]
  {
    assert [first, "", last][1..] == ["", last] && ["", last][1..] == [last] && [last][1..] == [];
    assert NonEmpty([last]) == [last] + NonEmpty([]);
  }

  lemma ItoaSurvives(n: int)
    ensures CleanEdges(Itoa(n))
  {
    if n < 0 { ParseDigitsOfDecimal(-n); } else { ParseDigitsOfDecimal(n); }
    hide Decimal, ParseDigits;
  }

  /** The header of a plain record that is read as itself has one of the two strengths. */
  lemma StrengthIsRead(r: Record)
    requires r.Constraint? && Plain(r) && ReadsAs(r, r)
    ensures r.strength == "hard" || r.strength == "soft"
  {
    hide ReadHeader, StrengthOf, AttrsOf, AttrTokens, Body, HasSpace, Get;
    if r.strength == "" {
      MissingStrengthIsSoft(r);
    } else {
      AttrTokensAreTokens("source", r.source) by { LowerCaseSource(); }
      TokensRead(r);
      assert HeaderTokens(r)[1..] == [r.strength] + AttrTokens("source", r.source);
      StrengthReadsExactly(r.strength, r.source);
    }
  }

  /** A fault's fields come from its body alone. */
  lemma FaultBodyIsRead(r: Record)
    requires r.Fault? && Plain(r) && ReadsAs(r, r)
    ensures Get(Body(r), "kind") == r.kind && Get(Body(r), "target") == r.target
  {
    hide ReadHeader, AttrsOf, Body, HasSpace;
    TokensRead(r);
    AttrsOfNone();
    assert HeaderTokens(r) != [] ==> HeaderTokens(r)[1..] == [];
  }

  lemma FieldsAreOwn(r: Record)
    requires Plain(r) && ReadsAs(r, r)
    ensures forall i :: 0 <= i < |BodyFields(r)| ==> ReadValue(BodyFields(r)[i]) == BodyFields(r)[i].value
  {
    hide ReadHeader, AttrsOf, Body, Get, HasSpace, StrengthOf, Plain, Itoa, Atoi, ReadValue;
    BodyReads(r);
    var f := BodyFields(r);
    assert ReadValue(f[0]) == Get(Body(r), f[0].key) && ReadValue(f[1]) == Get(Body(r), f[1].key);
    match r
    case Failure(_, _, exit, _, _, _) =>
      ItoaSurvives(exit);
      ReadValueIsOwnExactly(f[1]);
    case Fault(_, _, _) => FaultBodyIsRead(r);
    case _ =>
  }

  /** A plain record that is read as itself is well formed: nothing in that condition can be spared. */
  lemma OnlyWellFormed(r: Record)
    requires Plain(r) && ReadsAs(r, r)
    ensures WellFormed(r)
  {
    hide ReadHeader, BodyFields, Body, HasSpace, ReadsAs, Survives, PlainKey, Attr, IdToken;
    FieldsAreOwn(r);
    KeysArePlain(r);
    forall i | 0 <= i < |BodyFields(r)| ensures Survives(BodyFields(r)[i]) { ReadValueIsOwnExactly(BodyFields(r)[i]); }
    if r.Constraint? { StrengthIsRead(r); }
  }

  /** A list of records comes back from its printed text exactly when every one of them is well formed. */
  lemma ReadsBackExactly(recs: seq<Record>, printable: Printable)
    ensures ParseText(RecordsText(recs, printable)) == Ok(recs) <==> AllWellFormed(recs)
  {
    hide ParseText, RecordsText, WellFormed, Plain, ReadsAs;
    if AllWellFormed(recs) { ParseUndoesPrint(recs, printable); }
    if ParseText(RecordsText(recs, printable)) == Ok(recs) {
      ParsedIsPlain(RecordsText(recs, printable));
      RecordsAreReadAlone(recs, printable, recs);
      forall i | 0 <= i < |recs| ensures WellFormed(recs[i]) {
        assert recs[i] in recs;
        OnlyWellFormed(recs[i]);
      }
    }
  }

  /** The same of the code that builds the text and the code that reads it. */
  method PrintThenParse(recs: seq<Record>, printable: Printable) returns (result: Result<seq<Record>>)
    ensures result == Ok(recs) <==> AllWellFormed(recs)
  {
    hide AllWellFormed, ParseText, RecordsText;
    var text := Serialize(recs, printable);
    result := Parse(text);
    ReadsBackExactly(recs, printable);
  }
}
