/** What a text may contain beside its records, and exactly when and where reading it fails. */
module ParsingLaws {
  import opened Text
  import opened Quoting
  import opened Records
  import opened Parsing

  // ---- one line ----

  /** The line as it is looked at: without the returns at its end and the blanks at either edge. */
  function Seen(raw: string): string {
    TrimSpace(TrimReturns(raw))
  }

  predicate Comment(raw: string) {
    Seen(raw) != "" && Seen(raw)[0] == '#'
  }

  predicate BodyLine(raw: string) {
    Seen(raw) != "" && Seen(raw)[0] != '#' && Seen(raw)[0] != '@'
  }

  /** The first colon of the line. */
  predicate ColonAt(line: string, i: nat) {
    i < |line| && line[i] == ':' && forall j :: 0 <= j < i ==> line[j] != ':'
  }

  predicate InQuotes(v: string) {
    v != "" && (v[0] == '"' || v[0] == '`')
  }

  /** A body line has no reading without a colon, and none if its value opens a quote that does not close
      as it should; otherwise it is the trimmed key and the value, unquoted if quoted. */
  lemma KeyValueLaw(line: string)
    ensures ':' !in line ==> BodyLineOf(line) == Err(0, ExpectedKeyValue)
    ensures ':' in line ==> exists i: nat :: ColonAt(line, i)
    ensures forall i: nat :: ColonAt(line, i) ==>
              var key, v := TrimSpace(line[..i]), TrimSpace(line[i + 1..]);
              BodyLineOf(line) == if !InQuotes(v) then Ok((key, v))
                                  else if Unquote(v) == None then Err(0, InvalidQuotedValue) else Ok((key, Unquote(v).value))
  {
    hide TrimSpace, Unquote;
    var i := IndexOf(line, ':');
    assert i < |line| ==> ColonAt(line, i);
    assert forall k: nat :: ColonAt(line, k) ==> k == i;
  }

  /** A body line is refused where there is no record to put it in or where it has no reading; otherwise
      it sets its key in the open record and touches nothing else. */
  lemma BodyLineLaw(st: State, raw: string, lineNo: nat)
    requires BodyLine(raw)
    ensures Step(st, raw, lineNo) ==
              if st.current == None then Err(lineNo, BodyWithoutHeader)
              else match BodyLineOf(Seen(raw))
                   case Err(_, reason) => Err(lineNo, reason)
                   case Ok(kv) =>
                     Ok(State(st.done, Some(Open(st.current.value.header, st.current.value.body[kv.0 := kv.1], st.current.value.start))))
  {
    hide TrimSpace, TrimReturns, BodyLineOf;
  }

  /** A record cannot be built exactly when it needs an id and has none, or is a failure whose exit is
      there and is not a 64-bit decimal; a failure without one exits with zero. */
  lemma BuildLaw(kind: Kind, id: string, attrs: Attrs, body: Attrs)
    ensures Build(kind, id, attrs, body).Err? <==>
              || (id == "" && kind != KNext && kind != KFault)
              || (kind == KFailure && "exit" in body && body["exit"] != "" && Atoi(body["exit"]) == None)
    ensures Build(kind, id, attrs, body).Ok? ==>
              var r := Build(kind, id, attrs, body).value;
              && r.RecordKind() == kind && (kind != KNext && kind != KFault ==> r.Id() == id)
              && (kind == KFailure && ("exit" !in body || body["exit"] == "") ==> r.exit == 0)
              && (kind == KConstraint ==>
                    r.strength == if "strength" in attrs then attrs["strength"] else if "hard" in attrs then "hard" else "soft")
              && (kind == KFault ==>
                    && r.kind == (if "kind" in attrs && attrs["kind"] != "" then attrs["kind"] else if "kind" in body then body["kind"] else "")
                    && r.target == (if "target" in attrs && attrs["target"] != "" then attrs["target"] else if "target" in body then body["target"] else ""))
              && (kind == KPage ==> !r.stale)
  {
    hide Atoi;
  }

  // ---- quotes ----

  /** A value in back quotes is read exactly when the closing one is the last character and the only
      other; its returns are dropped. */
  lemma BackquoteLaw(s: string)
    requires |s| >= 2 && s[0] == '`'
    ensures Unquote(s).Some? <==> s[|s| - 1] == '`' && forall i :: 0 < i < |s| - 1 ==> s[i] != '`'
    ensures Unquote(s).Some? ==> Unquote(s).value == WithoutReturns(s[1..|s| - 1])
  {
    var end := IndexOf(s[1..], '`');
    assert forall i :: 0 < i < |s| ==> s[i] == s[1..][i - 1];
  }

  /** A byte escape stands for a character exactly below 0x80, a character escape for every scalar value. */
  lemma EscapeLaw(n: nat, rest: string)
    ensures n < 0x100 ==>
              Unescape(['\\', 'x'] + Hex(n, 2) + rest) == if n < 0x80 then Some((n as char, 4)) else None
    ensures n < 0x1_0000 ==>
              Unescape(['\\', 'u'] + Hex(n, 4) + rest) == if n < 0xD800 || n >= 0xE000 then Some((n as char, 6)) else None
    ensures n < 0x1_0000_0000 ==>
              Unescape(['\\', 'U'] + Hex(n, 8) + rest) == if n < 0xD800 || 0xE000 <= n < 0x11_0000 then Some((n as char, 10)) else None
  {
    hide Hex, ParseHex;
    Powers();
    if n < 0x100 { HexIsRead(n, 'x', 2, rest); }
    if n < 0x1_0000 { HexIsRead(n, 'u', 4, rest); }
    if n < 0x1_0000_0000 { HexIsRead(n, 'U', 8, rest); }
  }

  lemma HexIsRead(n: nat, letter: char, width: nat, rest: string)
    requires n < Pow16(width)
    ensures var s := ['\\', letter] + Hex(n, width) + rest;
            |s| >= 2 + width && s[0] == '\\' && s[1] == letter && ParseHex(s[2..2 + width]) == Some(n)
  {
    var s := ['\\', letter] + Hex(n, width) + rest;
    assert s[2..2 + width] == Hex(n, width);
    ParseHexOfHex(n, width);
  }

  /** What was open is finished by a blank line or the next header, at the cost of its own line if it
      cannot be built. */
  lemma FinishLaw(st: State, raw: string, lineNo: nat)
    requires st.current.Some? && !BodyLine(raw) && !Comment(raw)
    ensures var open := st.current.value; var built := Build(open.header.kind, open.header.id, open.header.attrs, open.body);
            && (built.Err? ==> Step(st, raw, lineNo) == Err(open.start, built.reason))
            && (built.Ok? && Seen(raw) == "" ==> Step(st, raw, lineNo) == Ok(State(st.done + [built.value], None)))
            && (built.Ok? && Seen(raw) != "" ==>
                  match HeaderOf(Seen(raw))
                  case None => Step(st, raw, lineNo) == Err(lineNo, UnknownKind)
                  case Some(h) => Step(st, raw, lineNo) == Ok(State(st.done + [built.value], Some(Open(h, map[], lineNo)))))
  {
    hide TrimSpace, TrimReturns, Build, HeaderOf;
  }

  /** A header is refused exactly when its first word, less one at sign, names no kind. */
  lemma HeaderLaw(line: string)
    ensures HeaderOf(line) == None <==>
              Fields(line) == [] || var tag := Fields(line)[0]; forall kind :: tag != KindName(kind) && tag != "@" + KindName(kind)
    ensures HeaderOf(line).Some? ==>
              var h, parts := HeaderOf(line).value, Fields(line);
              && parts != [] && (parts[0] == KindName(h.kind) || parts[0] == "@" + KindName(h.kind))
              && (h.id != "" ==> |parts| > 1 && h.id == parts[1] && '=' !in h.id && h.kind != KNext)
              && (|parts| > 1 && '=' !in parts[1] && h.kind != KNext ==> h.id == parts[1])
  {
    hide Fields, AttrsOf;
    var parts := Fields(line);
    if parts != [] {
      var tag := parts[0];
      if tag != "" && tag[0] == '@' {
        assert tag == "@" + tag[1..];
        NameDecides(tag[1..]);
        forall kind ensures tag != KindName(kind) && (tag == "@" + KindName(kind) <==> tag[1..] == KindName(kind)) { NameHasNoSign(kind, tag); }
      } else {
        NameDecides(tag);
        forall kind ensures tag != "@" + KindName(kind) { assert ("@" + KindName(kind))[0] == '@'; }
      }
    }
  }

  lemma NameDecides(s: string)
    ensures KindNamed(s) == None <==> forall kind :: s != KindName(kind)
    ensures KindNamed(s).Some? ==> s == KindName(KindNamed(s).value)
  {
    forall kind | s == KindName(kind) ensures KindNamed(s) == Some(kind) { KindNamedOfName(kind); }
  }

  lemma NameHasNoSign(kind: Kind, tag: string)
    requires tag != "" && tag[0] == '@'
    ensures tag != KindName(kind) && (tag == "@" + KindName(kind) <==> tag[1..] == KindName(kind))
  {
    assert KindName(kind)[0] != '@';
    assert ("@" + KindName(kind))[1..] == KindName(kind);
  }

  // ---- comments ----

  /** The same reading, whatever line numbers it was done at. */
  predicate SameState(a: State, b: State) {
    && a.done == b.done
    && (a.current.Some? <==> b.current.Some?)
    && (a.current.Some? ==> a.current.value.header == b.current.value.header && a.current.value.body == b.current.value.body)
  }

  predicate SameReading(a: Result<State>, b: Result<State>) {
    match (a, b)
    case (Ok(x), Ok(y)) => SameState(x, y)
    case (Err(_, r), Err(_, q)) => r == q
    case _ => false
  }

  lemma StepIgnoresNumbers(a: State, b: State, raw: string, m: nat, n: nat)
    requires SameState(a, b)
    ensures SameReading(Step(a, raw, m), Step(b, raw, n))
  {
    hide TrimSpace, TrimReturns, Build, HeaderOf, BodyLineOf;
  }

  lemma {:induction false} StepsIgnoreNumbers(a: State, b: State, lines: seq<string>, m: nat, n: nat)
    requires SameState(a, b)
    ensures SameReading(Steps(a, lines, m), Steps(b, lines, n))
    decreases |lines|
  {
    hide Step, SameState;
    if lines != [] {
      StepIgnoresNumbers(a, b, lines[0], m, n);
      if Step(a, lines[0], m).Ok? { StepsIgnoreNumbers(Step(a, lines[0], m).value, Step(b, lines[0], n).value, lines[1..], m + 1, n + 1); }
    }
  }

  /** A comment between any two lines of a text changes none of its records, and not whether it can be
      read. */
  lemma CommentsDoNotMatter(before: seq<string>, comment: string, after: seq<string>)
    requires Comment(comment)
    ensures SameReading(Steps(State([], None), before + [comment] + after, 1), Steps(State([], None), before + after, 1))
  {
    hide Step, Steps, SameState;
    var start := State([], None);
    StepsAppend(start, before + [comment], after, 1);
    StepsAppend(start, before, [comment], 1);
    StepsAppend(start, before, after, 1);
    match Steps(start, before, 1)
    case Err(_, _) =>
    case Ok(mid) =>
      OneStep(mid, comment, 1 + |before|);
      CommentStep(mid, comment, 1 + |before|);
      SameAsItself(mid);
      StepsIgnoreNumbers(mid, mid, after, 2 + |before|, 1 + |before|);
  }

  lemma CommentStep(st: State, comment: string, lineNo: nat)
    requires Comment(comment)
    ensures Step(st, comment, lineNo) == Ok(st)
  {
    hide TrimSpace, TrimReturns;
  }

  lemma SameAsItself(st: State)
    ensures SameState(st, st)
  {
  }
}
