/** Parsing undoes printing.  A field is read back from its line, a record from its lines, and a text
    from its records, each from what the line, the record or the text was printed with, whichever of the
    three ways a value was quoted in. */
module RoundTrip {
  import opened Text
  import opened Quoting
  import opened Records
  import opened Printing
  import opened Parsing

  // ---- one body line ----

  /** The value is printed so that trimming the line cannot touch it. */
  predicate Survives(f: Field) {
    f.prefer || NeedsQuotes(f.value) || CleanEdges(f.value)
  }

  predicate PlainKey(key: string) {
    key != "" && CleanEdges(key) && ':' !in key && '\n' !in key && key[0] != '@' && key[0] != '#'
  }

  lemma NotContained(s: string, chars: string, c: char)
    requires !ContainsAny(s, chars) && c in chars
    ensures c !in s
  {
    forall i | 0 <= i < |s|
      ensures s[i] != c
    {
      assert s[i] !in chars;
    }
  }

  /** What a printed value reads back as: a quoted one always as itself, a bare one as its trim. */
  lemma RenderedReadsBack(f: Field, printable: Printable)
    requires f.value != ""
    ensures var r := Rendered(f, printable);
            if f.prefer || NeedsQuotes(f.value) then
              |r| >= 2 && (r[0] == '"' || r[0] == '`') && CleanEdges(r) && Unquote(r) == Some(f.value)
            else r == f.value && r[0] != '"' && r[0] != '`'
  {
    if f.prefer || NeedsQuotes(f.value) {
      if BackquoteFits(f.key, f.value) {
        NotContained(f.value, "`\r\n", '`');
        NotContained(f.value, "`\r\n", '\r');
        UnquoteOfBackquote(f.value);
      } else {
        UnquoteOfQuote(f.value, printable);
      }
    } else {
      NotContained(f.value, " \t\r\n\"'`", '"');
      NotContained(f.value, " \t\r\n\"'`", '`');
    }
  }

  lemma RenderedIsOneLine(f: Field, printable: Printable)
    ensures '\n' !in Rendered(f, printable)
  {
    EscapedIsOneLine(f.value, printable);
    if f.prefer || NeedsQuotes(f.value) {
      if BackquoteFits(f.key, f.value) { NotContained(f.value, "`\r\n", '\n'); }
    } else {
      NotContained(f.value, " \t\r\n\"'`", '\n');
    }
  }

  lemma TrimSpaceOfPrefixed(v: string)
    ensures TrimSpace(" " + v) == TrimSpace(v)
  {
    TrimLeftPadding(" ", v);
  }

  /** A line with clean edges and no trailing return is read as it stands. */
  lemma CleanLineStands(line: string)
    requires CleanEdges(line)
    ensures TrimSpace(TrimReturns(line)) == line
  {
    TrimSpaceKeepsCleanEdges(line);
  }

  /** Where a line is cut, and what is trimmed off. */
  lemma LineParts(key: string, r: string)
    requires PlainKey(key)
    ensures Cut(key + ": " + r, ':') == Some((key, " " + r))
    ensures TrimSpace(key) == key && TrimSpace(" " + r) == TrimSpace(r)
  {
    hide TrimSpace, IndexOf;
    var line := key + ": " + r;
    assert line == key + [':'] + (" " + r);
    CutAtFirst(key, ':', " " + r);
    TrimSpaceKeepsCleanEdges(key);
    TrimSpaceOfPrefixed(r);
  }

  predicate Quoted(f: Field) {
    f.prefer || NeedsQuotes(f.value)
  }

  /** A surviving field is read back exactly. */
  lemma FieldReadsBack(f: Field, printable: Printable)
    requires PlainKey(f.key) && f.value != "" && Survives(f)
    ensures BodyLineOf(FieldLine(f, printable)) == Ok((f.key, f.value))
  {
    hide Rendered, Unquote, NeedsQuotes, TrimSpace, Cut, PlainKey;
    var r := Rendered(f, printable);
    RenderedReadsBack(f, printable);
    LineParts(f.key, r);
    TrimSpaceKeepsCleanEdges(r);
  }

  lemma FieldLineStands(f: Field, printable: Printable)
    requires PlainKey(f.key) && f.value != "" && Survives(f)
    ensures var line := FieldLine(f, printable);
            && OneLine(line) && line != "" && line[0] != '@' && line[0] != '#'
            && TrimSpace(TrimReturns(line)) == line
  {
    hide Rendered, Unquote, NeedsQuotes, TrimSpace, TrimReturns;
    var r := Rendered(f, printable);
    var line := FieldLine(f, printable);
    RenderedReadsBack(f, printable);
    RenderedIsOneLine(f, printable);
    assert CleanEdges(r) && r != "";
    assert line[0] == f.key[0] && line[|line| - 1] == r[|r| - 1];
    CleanLineStands(line);
  }

  /** A bare value with a trimmed edge is not read back: its line yields the trimmed value. */
  lemma UncleanEdgesAreLost(f: Field, printable: Printable)
    requires PlainKey(f.key) && f.value != "" && !Survives(f)
    ensures BodyLineOf(FieldLine(f, printable)) == Ok((f.key, TrimSpace(f.value)))
    ensures TrimSpace(f.value) != f.value
  {
    hide Unquote, NeedsQuotes, TrimSpace, Cut, PlainKey;
    RenderedReadsBack(f, printable);
    LineParts(f.key, f.value);
    TrimSpaceKeepsCleanEdges(f.value);
    TrimmedValueIsBare(f.value);
  }

  /** Exactly the surviving fields are read back from their own line. */
  lemma FieldReadsBackExactly(f: Field, printable: Printable)
    requires PlainKey(f.key) && f.value != ""
    ensures BodyLineOf(FieldLine(f, printable)) == Ok((f.key, f.value)) <==> Survives(f)
  {
    hide BodyLineOf, FieldLine, Survives;
    if Survives(f) {
      FieldReadsBack(f, printable);
    } else {
      UncleanEdgesAreLost(f, printable);
    }
  }

  lemma {:induction false} TrimLeftSuffix(s: string) returns (k: nat)
    ensures k <= |s| && TrimLeft(s) == s[k..]
  {
    hide IsSpace;
    if s != "" && IsSpace(s[0]) {
      var j := TrimLeftSuffix(s[1..]);
      k := j + 1;
      assert s[k..] == s[1..][j..];
    } else {
      k := 0;
      assert s[0..] == s;
    }
  }

  lemma TrimmedValueIsBare(v: string)
    requires !NeedsQuotes(v)
    ensures TrimSpace(v) == "" || (TrimSpace(v)[0] != '"' && TrimSpace(v)[0] != '`')
  {
    hide TrimLeft, TrimRight, IsSpace;
    var k := TrimLeftSuffix(v);
    TrimRightKeepsPrefix(TrimLeft(v));
    var n :| 0 <= n <= |v[k..]| && TrimSpace(v) == v[k..][..n];
    NotContained(v, " \t\r\n\"'`", '"');
    NotContained(v, " \t\r\n\"'`", '`');
  }

  // ---- what any body line reads back as ----

  /** The value a field is read back with: its own, unless it goes bare with a trimmed edge. */
  function ReadValue(f: Field): string {
    if Survives(f) then f.value else TrimSpace(TrimRight(f.value))
  }

  lemma TrimmedIsClean(s: string)
    ensures CleanEdges(TrimSpace(s))
  {
    TrimLeftStarts(s);
    TrimRightKeepsPrefix(TrimLeft(s));
  }

  /** Exactly the surviving values are read back as they were. */
  lemma ReadValueIsOwnExactly(f: Field)
    ensures ReadValue(f) == f.value <==> Survives(f)
  {
    TrimmedIsClean(TrimRight(f.value));
  }

  lemma {:induction false} TrimRightOfSum(a: string, v: string)
    ensures TrimRight(a + v) == if TrimRight(v) == "" then TrimRight(a) else a + TrimRight(v)
  {
    hide IsSpace;
    if v == "" {
      assert a + v == a;
    } else {
      var s := a + v;
      assert s[..|s| - 1] == a + v[..|v| - 1] && s[|s| - 1] == v[|v| - 1];
      if IsSpace(v[|v| - 1]) { TrimRightOfSum(a, v[..|v| - 1]); }
    }
  }

  /** A bare line that ends in white space is read without it. */
  lemma TrimmedLine(f: Field, printable: Printable)
    requires PlainKey(f.key) && f.value != "" && !Survives(f)
    ensures var line := FieldLine(f, printable); var v := TrimRight(f.value);
            TrimSpace(TrimReturns(line)) == (if v == "" then f.key + ":" else f.key + ": " + v)
  {
    hide NeedsQuotes, TrimLeft, TrimRight;
    var line := FieldLine(f, printable);
    assert line == f.key + ": " + f.value;
    NotContained(f.value, " \t\r\n\"'`", '\r') by { BareHasNone(f); }
    assert line[|line| - 1] == f.value[|f.value| - 1];
    assert TrimReturns(line) == line;
    assert line[0] == f.key[0];
    assert TrimLeft(line) == line by { StartsClean(line); }
    TrimRightOfSum(f.key + ": ", f.value);
    KeyTrims(f.key);
  }

  lemma BareHasNone(f: Field)
    requires !Quoted(f)
    ensures !ContainsAny(f.value, " \t\r\n\"'`")
  {
  }

  lemma StartsClean(s: string)
    requires s != "" && !IsSpace(s[0])
    ensures TrimLeft(s) == s
  {
  }

  lemma KeyTrims(key: string)
    requires PlainKey(key)
    ensures TrimRight(key + ": ") == key + ":"
  {
    var s := key + ": ";
    assert s[..|s| - 1] == key + ":";
  }

  /** A bare value whose edge is trimmed reads back trimmed, from the line as the parser sees it. */
  lemma TrimmedFieldReadsBack(f: Field, printable: Printable)
    requires PlainKey(f.key) && f.value != "" && !Survives(f)
    ensures BodyLineOf(TrimSpace(TrimReturns(FieldLine(f, printable)))) == Ok((f.key, ReadValue(f)))
  {
    hide NeedsQuotes, TrimSpace, TrimRight, Cut, PlainKey, FieldLine, Unquote;
    var v := TrimRight(f.value);
    TrimmedLine(f, printable);
    BareTrims(f);
    TrimmedValueIsBare(v);
    if v == "" {
      assert f.key + ":" == f.key + [':'] + "";
      assert ':' !in f.key && CleanEdges(f.key) by { KeyParts(f.key); }
      CutAtFirst(f.key, ':', "");
      TrimSpaceKeepsCleanEdges(f.key);
    } else {
      LineParts(f.key, v);
    }
  }

  lemma KeyParts(key: string)
    requires PlainKey(key)
    ensures ':' !in key && CleanEdges(key)
  {
  }

  lemma BareTrims(f: Field)
    requires !Survives(f)
    ensures !NeedsQuotes(TrimRight(f.value))
  {
    TrimRightKeepsPrefix(f.value);
    var n :| 0 <= n <= |f.value| && TrimRight(f.value) == f.value[..n];
  }

  // ---- the body of one record ----

  /** The body map once the lines of some fields have been read into it. */
  function Collected(body: Attrs, fields: seq<Field>): Attrs
    decreases |fields|
  {
    if fields == [] then body
    else Collected(if fields[0].value == "" then body else body[fields[0].key := ReadValue(fields[0])], fields[1..])
  }

  predicate PlainKeys(fields: seq<Field>) {
    forall i :: 0 <= i < |fields| ==> PlainKey(fields[i].key)
  }

  predicate GoodFields(fields: seq<Field>) {
    forall i :: 0 <= i < |fields| ==> PlainKey(fields[i].key) && (fields[i].value == "" || Survives(fields[i]))
  }

  predicate DistinctKeys(fields: seq<Field>) {
    forall i, j :: 0 <= i < j < |fields| ==> fields[i].key != fields[j].key
  }

  lemma FieldStep(st: State, f: Field, printable: Printable, lineNo: nat)
    requires PlainKey(f.key) && f.value != "" && st.current.Some?
    ensures Step(st, FieldLine(f, printable), lineNo)
         == Ok(st.(current := Some(st.current.value.(body := st.current.value.body[f.key := ReadValue(f)]))))
  {
    hide FieldLine, BodyLineOf, Survives, PlainKey, TrimSpace, TrimReturns, TrimRight;
    if Survives(f) {
      FieldReadsBack(f, printable);
      FieldLineStands(f, printable);
    } else {
      TrimmedFieldReadsBack(f, printable);
      TrimmedLine(f, printable);
      KeyStarts(f.key);
    }
  }

  lemma KeyStarts(key: string)
    requires PlainKey(key)
    ensures key != "" && key[0] != '@' && key[0] != '#'
  {
  }

  lemma {:induction false} FieldsStep(st: State, fields: seq<Field>, printable: Printable, lineNo: nat)
    requires PlainKeys(fields) && st.current.Some?
    ensures Steps(st, FieldLines(fields, printable), lineNo)
         == Ok(st.(current := Some(st.current.value.(body := Collected(st.current.value.body, fields)))))
    decreases |fields|
  {
    hide FieldLine, Step, PlainKey, ReadValue;
    if fields == [] {
      assert Steps(st, [], lineNo) == Ok(st);
    } else {
      var lines := FieldLines(fields, printable);
      assert PlainKey(fields[0].key);
      if fields[0].value == "" {
        assert lines == FieldLines(fields[1..], printable);
        FieldsStep(st, fields[1..], printable, lineNo);
      } else {
        FieldStep(st, fields[0], printable, lineNo);
        var next := st.(current := Some(st.current.value.(body := st.current.value.body[fields[0].key := ReadValue(fields[0])])));
        FieldsStep(next, fields[1..], printable, lineNo + 1);
        assert lines[0] == FieldLine(fields[0], printable) && lines[1..] == FieldLines(fields[1..], printable);
      }
    }
  }

  lemma {:induction false} CollectedKeeps(body: Attrs, fields: seq<Field>, key: string)
    requires forall i :: 0 <= i < |fields| ==> fields[i].key != key
    ensures Get(Collected(body, fields), key) == Get(body, key)
    decreases |fields|
  {
    if fields != [] {
      CollectedKeeps(if fields[0].value == "" then body else body[fields[0].key := ReadValue(fields[0])], fields[1..], key);
    }
  }

  /** Each field is found under its key, an unwritten empty one included. */
  lemma {:induction false} CollectedFinds(body: Attrs, fields: seq<Field>, i: nat)
    requires DistinctKeys(fields) && i < |fields| && fields[i].key !in body
    ensures Get(Collected(body, fields), fields[i].key) == ReadValue(fields[i])
    decreases |fields|
  {
    hide TrimSpace, TrimRight, NeedsQuotes;
    var next := if fields[0].value == "" then body else body[fields[0].key := ReadValue(fields[0])];
    if i == 0 {
      CollectedKeeps(next, fields[1..], fields[0].key);
    } else {
      CollectedFinds(next, fields[1..], i - 1);
    }
  }

  // ---- the header of one record ----

  lemma AttrTokenReads(attrs: Attrs, key: string, value: string)
    requires '=' !in key
    ensures AddAttr(attrs, key + "=" + value) == attrs[key := value]
  {
    CutAtFirst(key, '=', value);
    assert key + "=" + value == key + ['='] + value;
  }

  lemma AttrsOfNone()
    ensures AttrsOf([]) == map[]
  {
  }

  lemma AttrsOfOneMore(tokens: seq<string>, last: string)
    ensures AttrsOf(tokens + [last]) == AddAttr(AttrsOf(tokens), last)
  {
    assert (tokens + [last])[..|tokens|] == tokens;
  }

  /** An attribute is found in the header it was written to, and no other is touched. */
  lemma AttrTokensRead(tokens: seq<string>, key: string, value: string)
    requires '=' !in key
    ensures AttrsOf(tokens + AttrTokens(key, value)) == if value == "" then AttrsOf(tokens) else AttrsOf(tokens)[key := value]
  {
    hide AttrsOf, AddAttr;
    if value == "" {
      assert tokens + [] == tokens;
    } else {
      AttrTokenReads(AttrsOf(tokens), key, value);
      AttrsOfOneMore(tokens, key + "=" + value);
    }
  }

  predicate IdToken(s: string) {
    Token(s) && '=' !in s
  }

  predicate Attr(s: string) {
    !HasSpace(s)
  }

  lemma KindTag(kind: Kind)
    ensures var tag := "@" + KindName(kind); Token(tag) && tag[1..] == KindName(kind) && OneLine(tag)
  {
    var tag := "@" + KindName(kind);
    assert forall i :: 0 <= i < |tag| ==> tag[i] == '@' || 'a' <= tag[i] <= 'z';
  }

  lemma {:induction false} JoinedTokensEdges(first: string, tokens: seq<string>)
    requires Token(first) && forall i :: 0 <= i < |tokens| ==> Token(tokens[i])
    ensures var line := first + JoinTokens(tokens); line[0] == first[0] && CleanEdges(line) && OneLine(line)
    decreases |tokens|
  {
    hide IsSpace;
    TokenIsOneLine(first);
    if tokens == [] {
      assert first + JoinTokens(tokens) == first;
    } else {
      JoinedTokensEdges(tokens[0], tokens[1..]);
      var rest := tokens[0] + JoinTokens(tokens[1..]);
      assert first + JoinTokens(tokens) == first + " " + rest;
    }
  }

  lemma TokenIsOneLine(t: string)
    requires Token(t)
    ensures OneLine(t) && !IsSpace(t[0]) && !IsSpace(t[|t| - 1])
  {
  }

  /** A header of good tokens reads back as its kind, its id and its attributes. */
  lemma {:induction false} HeaderReadsBack(kind: Kind, tokens: seq<string>)
    requires forall i :: 0 <= i < |tokens| ==> Token(tokens[i])
    requires kind == KNext ==> tokens == []
    requires tokens != [] ==> '=' !in tokens[0]
    ensures HeaderOf("@" + KindName(kind) + JoinTokens(tokens))
         == Some(if tokens == [] then Header(kind, "", map[]) else Header(kind, tokens[0], AttrsOf(tokens[1..])))
  {
    hide KindName, KindNamed, Fields, JoinTokens;
    var tag := "@" + KindName(kind);
    KindTag(kind);
    FieldsOfTokens(tag, tokens);
    KindNamedOfName(kind);
    var parts := [tag] + tokens;
    if tokens == [] {
      assert parts[1..] == [];
    } else {
      assert parts[2..] == tokens[1..] && parts[1] == tokens[0];
    }
  }

  // ---- whole records ----

  /** What the format can carry: single-token ids and attributes, one of the two strengths, bodies
      with clean edges wherever they go unquoted, a 64-bit exit status, no stale flag. */
  predicate WellFormed(r: Record) {
    && GoodFields(BodyFields(r))
    && match r
       case Task(id, phase, priority, _, _, _, _) => IdToken(id) && Attr(phase) && Attr(priority)
       case Constraint(id, strength, source, _, _) => IdToken(id) && (strength == "hard" || strength == "soft") && Attr(source)
       case Failure(id, _, exit, _, _, _) => IdToken(id) && MinInt64 <= exit <= MaxInt64
       case Decision(id, _, _, _, _) => IdToken(id)
       case Avoid(id, reason, _, _) => IdToken(id) && Attr(reason)
       case Assumption(id, status, _, _) => IdToken(id) && Attr(status)
       case Invalidated(id, _, _) => IdToken(id)
       case NextStep(_, _, _) => true
       case PageRecord(id, kind, tier, _, _, _, _, stale) => IdToken(id) && Attr(kind) && Attr(tier) && !stale
       case Fault(id, _, _) => id == "" || IdToken(id)
  }

  lemma AttrTokenIsToken(key: string, value: string)
    requires LowerCase(key)
    requires Attr(value) && value != ""
    ensures Token(key + "=" + value)
  {
    var t := key + "=" + value;
    forall i | 0 <= i < |t|
      ensures !IsSpace(t[i])
    {
      if i < |key| {
        assert t[i] == key[i];
      } else if i > |key| {
        assert t[i] == value[i - |key| - 1];
      }
    }
  }

  lemma AttrTokensAreTokens(key: string, value: string)
    requires LowerCase(key) && Attr(value)
    ensures forall i :: 0 <= i < |AttrTokens(key, value)| ==> Token(AttrTokens(key, value)[i])
  {
    hide HasSpace, Token, LowerCase;
    LowerCaseIsPlain(key);
    if value != "" { AttrTokenIsToken(key, value); }
  }

  predicate LowerCase(s: string) {
    s != "" && forall i :: 0 <= i < |s| ==> 'a' <= s[i] <= 'z'
  }

  lemma LowerCaseIsPlain(s: string)
    requires LowerCase(s)
    ensures '=' !in s && Token(s)
  {
  }

  lemma HeaderTokensAreTokens(r: Record)
    requires WellFormed(r)
    ensures forall i :: 0 <= i < |HeaderTokens(r)| ==> Token(HeaderTokens(r)[i])
    ensures HeaderTokens(r) != [] ==> '=' !in HeaderTokens(r)[0] && HeaderTokens(r)[0] == r.Id()
  {
    hide GoodFields, BodyFields, HasSpace, AttrTokens, Attr;
    match r
    case Task(_, phase, priority, _, _, _, _) =>
      AttrTokensAreTokens("phase", phase);
      AttrTokensAreTokens("priority", priority);
    case Constraint(_, strength, source, _, _) =>
      LowerCaseIsPlain(strength);
      AttrTokensAreTokens("source", source);
    case Avoid(_, reason, _, _) => AttrTokensAreTokens("reason", reason);
    case Assumption(_, status, _, _) => AttrTokensAreTokens("status", status);
    case PageRecord(_, kind, tier, _, _, _, _, _) =>
      AttrTokensAreTokens("kind", kind);
      AttrTokensAreTokens("tier", tier);
    case _ =>
  }

  /** The attributes of a record's header. */
  function HeaderAttrs(r: Record): Attrs {
    if HeaderTokens(r) == [] then map[] else AttrsOf(HeaderTokens(r)[1..])
  }

  lemma TwoAttrs(k1: string, v1: string, k2: string, v2: string)
    requires LowerCase(k1) && LowerCase(k2) && k1 != k2
    ensures var attrs := AttrsOf(AttrTokens(k1, v1) + AttrTokens(k2, v2)); Get(attrs, k1) == v1 && Get(attrs, k2) == v2
  {
    hide AttrTokens, AttrsOf, LowerCase;
    AttrsOfNone();
    LowerCaseIsPlain(k1);
    LowerCaseIsPlain(k2);
    AttrTokensRead([], k1, v1);
    assert [] + AttrTokens(k1, v1) == AttrTokens(k1, v1);
    AttrTokensRead(AttrTokens(k1, v1), k2, v2);
  }

  lemma OneAttr(k: string, v: string)
    requires LowerCase(k)
    ensures Get(AttrsOf(AttrTokens(k, v)), k) == v
  {
    hide AttrTokens, AttrsOf, LowerCase;
    AttrsOfNone();
    LowerCaseIsPlain(k);
    AttrTokensRead([], k, v);
    assert [] + AttrTokens(k, v) == AttrTokens(k, v);
  }

  lemma StrengthAttrs(strength: string, source: string)
    requires strength == "hard" || strength == "soft"
    ensures var attrs := AttrsOf([strength] + AttrTokens("source", source));
            StrengthOf(attrs) == strength && Get(attrs, "source") == source
  {
    hide AttrTokens, AttrsOf;
    AttrsOfNone();
    LowerCaseIsPlain(strength);
    LowerCaseIsPlain("source");
    assert [] + [strength] == [strength];
    AttrsOfOneMore([], strength);
    CutAbsent(strength, '=');
    AttrTokensRead([strength], "source", source);
    assert "source" != "hard" && "source" != "soft" && "strength" != "source" && "strength" != strength;
  }

  lemma HeaderAttrsRead(r: Record)
    requires WellFormed(r)
    ensures match r
            case Task(_, phase, priority, _, _, _, _) => Get(HeaderAttrs(r), "phase") == phase && Get(HeaderAttrs(r), "priority") == priority
            case Constraint(_, strength, source, _, _) => StrengthOf(HeaderAttrs(r)) == strength && Get(HeaderAttrs(r), "source") == source
            case Avoid(_, reason, _, _) => Get(HeaderAttrs(r), "reason") == reason
            case Assumption(_, status, _, _) => Get(HeaderAttrs(r), "status") == status
            case PageRecord(_, kind, tier, _, _, _, _, _) => Get(HeaderAttrs(r), "kind") == kind && Get(HeaderAttrs(r), "tier") == tier
            case _ => HeaderAttrs(r) == map[]
  {
    hide AttrsOf, AttrTokens, StrengthOf, GoodFields, BodyFields, Get, HasSpace, Attr, IdToken;
    AttrsOfNone();
    match r
    case Task(id, phase, priority, _, _, _, _) =>
      TwoAttrs("phase", phase, "priority", priority);
      assert HeaderTokens(r)[1..] == AttrTokens("phase", phase) + AttrTokens("priority", priority);
    case Constraint(id, strength, source, _, _) =>
      StrengthAttrs(strength, source);
      assert HeaderTokens(r)[1..] == [strength] + AttrTokens("source", source);
    case Avoid(id, reason, _, _) =>
      OneAttr("reason", reason);
      assert HeaderTokens(r)[1..] == AttrTokens("reason", reason);
    case Assumption(id, status, _, _) =>
      OneAttr("status", status);
      assert HeaderTokens(r)[1..] == AttrTokens("status", status);
    case PageRecord(id, kind, tier, _, _, _, _, _) =>
      TwoAttrs("kind", kind, "tier", tier);
      assert HeaderTokens(r)[1..] == AttrTokens("kind", kind) + AttrTokens("tier", tier);
    case _ => assert HeaderTokens(r) != [] ==> HeaderTokens(r)[1..] == [];
  }

  lemma BodyKeysDistinct(r: Record)
    ensures DistinctKeys(BodyFields(r))
  {
    hide Itoa;
  }

  /** The body of a record, read back. */
  function Body(r: Record): Attrs {
    Collected(map[], BodyFields(r))
  }

  /** The names body fields go by. */
  predicate KeyName(key: string) {
    key != "" && forall i :: 0 <= i < |key| ==> 'a' <= key[i] <= 'z' || key[i] == '_'
  }

  lemma KeyNameIsPlain(key: string)
    requires KeyName(key)
    ensures PlainKey(key)
  {
  }

  lemma BodyKeyNames(r: Record)
    ensures forall i :: 0 <= i < |BodyFields(r)| ==> KeyName(BodyFields(r)[i].key)
  {
    hide Itoa;
  }

  lemma KeysArePlain(r: Record)
    ensures PlainKeys(BodyFields(r))
  {
    hide BodyFields, KeyName, PlainKey;
    BodyKeyNames(r);
    forall i | 0 <= i < |BodyFields(r)| ensures PlainKey(BodyFields(r)[i].key) { KeyNameIsPlain(BodyFields(r)[i].key); }
  }

  lemma BodyReads(r: Record)
    ensures forall i :: 0 <= i < |BodyFields(r)| ==> Get(Body(r), BodyFields(r)[i].key) == ReadValue(BodyFields(r)[i])
  {
    hide BodyFields, Collected, DistinctKeys, ReadValue;
    BodyKeysDistinct(r);
    forall i | 0 <= i < |BodyFields(r)|
      ensures Get(Body(r), BodyFields(r)[i].key) == ReadValue(BodyFields(r)[i])
    {
      CollectedFinds(map[], BodyFields(r), i);
    }
  }

  lemma GoodFieldsRead(r: Record)
    requires GoodFields(BodyFields(r))
    ensures forall i :: 0 <= i < |BodyFields(r)| ==> Get(Body(r), BodyFields(r)[i].key) == BodyFields(r)[i].value
  {
    hide BodyFields, Collected, Body, Survives, PlainKey;
    BodyReads(r);
    EmptySurvives();
    forall i | 0 <= i < |BodyFields(r)|
      ensures ReadValue(BodyFields(r)[i]) == BodyFields(r)[i].value
    {
    }
  }

  lemma EmptySurvives()
    ensures forall f: Field :: f.value == "" ==> Survives(f)
  {
  }

  /** Building from what was printed gives the record back. */
  lemma BuildReadsBack(r: Record)
    requires WellFormed(r)
    ensures Build(r.RecordKind(), if HeaderTokens(r) == [] then "" else HeaderTokens(r)[0], HeaderAttrs(r), Body(r)) == Ok(r)
  {
    hide HeaderAttrs, Body, Get, StrengthOf, GoodFields, HasSpace, Attr, Itoa, Atoi;
    HeaderAttrsRead(r);
    assert GoodFields(BodyFields(r));
    GoodFieldsRead(r);
    var f := BodyFields(r);
    assert f[0].value == Get(Body(r), f[0].key) && f[1].value == Get(Body(r), f[1].key);
    match r
    case Task(_, _, _, _, _, _, _) => assert f[2].value == Get(Body(r), f[2].key) && f[3].value == Get(Body(r), f[3].key);
    case Failure(_, _, exit, _, _, _) =>
      AtoiOfItoa(exit);
      ItoaIsNotEmpty(exit);
      assert f[2].value == Get(Body(r), f[2].key) && f[3].value == Get(Body(r), f[3].key) && f[4].value == Get(Body(r), f[4].key);
    case Decision(_, _, _, _, _) => assert f[2].value == Get(Body(r), f[2].key) && f[3].value == Get(Body(r), f[3].key);
    case NextStep(_, _, _) => assert f[2].value == Get(Body(r), f[2].key);
    case PageRecord(_, _, _, _, _, _, _, _) => assert f[2].value == Get(Body(r), f[2].key) && f[3].value == Get(Body(r), f[3].key);
    case Fault(_, _, _) => GetFromNone("kind"); GetFromNone("target");
    case _ =>
  }

  lemma ItoaIsNotEmpty(n: int)
    ensures Itoa(n) != ""
  {
  }

  lemma GetFromNone(key: string)
    ensures Get(map[], key) == ""
  {
  }

  // ---- whole texts ----

  /** The state after a record's lines: what was open before is done, the record is collecting. */
  function Collecting(done: seq<Record>, r: Record, lineNo: nat): State {
    State(done, Some(Open(Header(r.RecordKind(), if HeaderTokens(r) == [] then "" else HeaderTokens(r)[0], HeaderAttrs(r)), Body(r), lineNo)))
  }

  lemma HeaderStep(done: seq<Record>, r: Record, lineNo: nat)
    requires WellFormed(r)
    ensures var st := State(done, None);
            var next := Collecting(done, r, lineNo);
            Step(st, HeaderLine(r), lineNo) == Ok(next.(current := Some(next.current.value.(body := map[]))))
    ensures OneLine(HeaderLine(r))
  {
    hide WellFormed, HeaderOf, HeaderTokens, AttrsOf, KindName, JoinTokens, TrimSpace, TrimReturns, Body, Token;
    HeaderTokensAreTokens(r);
    KindOfNext(r);
    KindTag(r.RecordKind());
    JoinedTokensEdges("@" + KindName(r.RecordKind()), HeaderTokens(r));
    CleanLineStands(HeaderLine(r));
    HeaderReadsBack(r.RecordKind(), HeaderTokens(r));
  }

  lemma KindOfNext(r: Record)
    ensures r.RecordKind() == KNext ==> HeaderTokens(r) == []
  {
  }

  lemma RecordStep(done: seq<Record>, r: Record, printable: Printable, lineNo: nat)
    requires WellFormed(r)
    ensures Steps(State(done, None), RecordLines(r, printable), lineNo) == Ok(Collecting(done, r, lineNo))
  {
    hide Step, HeaderLine, FieldLines, BodyFields, Collected, HeaderAttrs, HeaderTokens;
    HeaderStep(done, r, lineNo);
    var next := Collecting(done, r, lineNo);
    var st := next.(current := Some(next.current.value.(body := map[])));
    KeysArePlain(r);
    FieldsStep(st, BodyFields(r), printable, lineNo + 1);
    assert RecordLines(r, printable)[1..] == FieldLines(BodyFields(r), printable);
  }

  lemma CollectingEmits(done: seq<Record>, r: Record, lineNo: nat)
    requires WellFormed(r)
    ensures Emit(Collecting(done, r, lineNo)) == Ok(State(done + [r], None))
  {
    hide Build, HeaderTokens, HeaderAttrs, Body, WellFormed;
    BuildReadsBack(r);
  }

  /** All the lines of a text, a blank one between two records. */
  function TextLines(recs: seq<Record>, printable: Printable): seq<string> {
    if recs == [] then []
    else if |recs| == 1 then RecordLines(recs[0], printable)
    else TextLines(recs[..|recs| - 1], printable) + [""] + RecordLines(recs[|recs| - 1], printable)
  }

  lemma {:induction false} TextLinesJoin(recs: seq<Record>, printable: Printable)
    ensures JoinLines(TextLines(recs, printable)) == RecordsText(recs, printable)
  {
    hide RecordLines;
    if |recs| > 1 {
      var front, last := recs[..|recs| - 1], RecordLines(recs[|recs| - 1], printable);
      TextLinesJoin(front, printable);
      JoinLinesAppend(TextLines(front, printable), [""]);
      JoinLinesAppend(TextLines(front, printable) + [""], last);
      BlankLine();
    }
  }

  lemma BlankLine()
    ensures JoinLines([""]) == "\n"
  {
    assert [""][1..] == [];
    assert JoinLines([""]) == "" + "\n" + "";
  }

  lemma {:induction false} FieldLinesAreLines(fields: seq<Field>, printable: Printable)
    requires PlainKeys(fields)
    ensures forall i :: 0 <= i < |FieldLines(fields, printable)| ==> OneLine(FieldLines(fields, printable)[i])
    decreases |fields|
  {
    hide FieldLine, PlainKey, OneLine;
    if fields != [] {
      FieldLinesAreLines(fields[1..], printable);
      FieldLineIsLine(fields[0], printable);
    }
  }

  lemma FieldLineIsLine(f: Field, printable: Printable)
    requires PlainKey(f.key)
    ensures OneLine(FieldLine(f, printable))
  {
    hide Rendered;
    RenderedIsOneLine(f, printable);
  }

  lemma RecordLinesAreLines(r: Record, printable: Printable)
    requires OneLine(HeaderLine(r))
    ensures forall i :: 0 <= i < |RecordLines(r, printable)| ==> OneLine(RecordLines(r, printable)[i])
  {
    hide HeaderLine, FieldLines, BodyFields, OneLine;
    KeysArePlain(r);
    FieldLinesAreLines(BodyFields(r), printable);
  }

  predicate AllWellFormed(recs: seq<Record>) {
    forall i :: 0 <= i < |recs| ==> WellFormed(recs[i])
  }

  lemma {:induction false} TextLinesAreLines(recs: seq<Record>, printable: Printable)
    requires forall i :: 0 <= i < |recs| ==> OneLine(HeaderLine(recs[i]))
    ensures forall i :: 0 <= i < |TextLines(recs, printable)| ==> OneLine(TextLines(recs, printable)[i])
  {
    hide RecordLines, HeaderLine;
    if recs != [] {
      RecordLinesAreLines(recs[|recs| - 1], printable);
      if |recs| > 1 { TextLinesAreLines(recs[..|recs| - 1], printable); }
    }
  }

  lemma HeadersAreLines(recs: seq<Record>)
    requires AllWellFormed(recs)
    ensures forall i :: 0 <= i < |recs| ==> OneLine(HeaderLine(recs[i]))
  {
    hide WellFormed, HeaderLine, OneLine, Collecting;
    forall i | 0 <= i < |recs| ensures OneLine(HeaderLine(recs[i])) { HeaderStep([], recs[i], 0); }
  }

  /** Reading the lines of some records leaves the last one open and the others done. */
  lemma {:induction false} TextSteps(recs: seq<Record>, printable: Printable) returns (lineNo: nat)
    requires AllWellFormed(recs) && recs != []
    ensures var last := |recs| - 1;
            Steps(State([], None), TextLines(recs, printable), 1) == Ok(Collecting(recs[..last], recs[last], lineNo))
  {
    hide RecordLines, WellFormed, Collecting, Step;
    var last := |recs| - 1;
    if last == 0 {
      lineNo := 1;
      RecordStep([], recs[0], printable, 1);
      assert recs[..0] == [];
    } else {
      var front := recs[..last];
      var n := TextSteps(front, printable);
      assert front[..last - 1] + [front[last - 1]] == front;
      var mid := Collecting(front[..last - 1], front[last - 1], n);
      CollectingEmits(front[..last - 1], front[last - 1], n);
      var head := TextLines(front, printable);
      BlankStep(mid, 1 + |head|);
      lineNo := 2 + |head|;
      RecordStep(front, recs[last], printable, lineNo);
      StepsAppend(State([], None), head, [""], 1);
      StepsAppend(State([], None), head + [""], RecordLines(recs[last], printable), 1);
    }
  }

  lemma BlankStep(st: State, lineNo: nat)
    ensures Steps(st, [""], lineNo) == Emit(st)
  {
    hide Emit;
    OneStep(st, "", lineNo);
    assert TrimSpace(TrimReturns("")) == "";
  }

  /** Parsing the printed text of well-formed records gives the same records. */
  lemma {:induction false} ParseUndoesPrint(recs: seq<Record>, printable: Printable)
    requires AllWellFormed(recs)
    ensures ParseText(RecordsText(recs, printable)) == Ok(recs)
  {
    hide Steps, TextLines, JoinLines, WellFormed, RecordsText, Collecting, HeaderLine;
    var lines := TextLines(recs, printable);
    TextLinesJoin(recs, printable);
    HeadersAreLines(recs);
    TextLinesAreLines(recs, printable);
    SplitLinesOfJoin(lines, "");
    var text := RecordsText(recs, printable);
    assert JoinLines(lines) + "" == text;
    assert SplitLines("") == [""];
    StepsAppend(State([], None), lines, [""], 1);
    if recs == [] {
      NoLines(printable);
      BlankStep(State([], None), 1);
    } else {
      var last := |recs| - 1;
      var n := TextSteps(recs, printable);
      BlankStep(Collecting(recs[..last], recs[last], n), 1 + |lines|);
      CollectingEmits(recs[..last], recs[last], n);
      assert recs[..last] + [recs[last]] == recs;
    }
  }

  lemma NoLines(printable: Printable)
    ensures TextLines([], printable) == [] && Steps(State([], None), [], 1) == Ok(State([], None))
  {
  }

  /** The stale flag of a page is not part of the text, so no stale page comes back as it was. */
  lemma StaleIsLost(r: Record, printable: Printable)
    requires r.PageRecord?
    ensures RecordText(r, printable) == RecordText(r.(stale := false), printable)
  {
    hide JoinLines, FieldLines, JoinTokens;
    assert BodyFields(r) == BodyFields(r.(stale := false));
    assert HeaderTokens(r) == HeaderTokens(r.(stale := false));
  }
}
