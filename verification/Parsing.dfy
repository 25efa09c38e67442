/** Text to records: line by line, one open record at a time. */
module Parsing {
  import opened Text
  import opened Quoting
  import opened Records

  datatype Reason = UnknownKind | BodyWithoutHeader | ExpectedKeyValue | InvalidQuotedValue | MissingId | InvalidExit

  datatype Result<+T> = Ok(value: T) | Err(line: nat, reason: Reason)

  type Attrs = map<string, string>

  function Get(m: Attrs, k: string): string {
    if k in m then m[k] else ""
  }

  // ---- one line ----

  datatype Header = Header(kind: Kind, id: string, attrs: Attrs)

  /** key=value, or a bare flag. */
  function AddAttr(attrs: Attrs, token: string): Attrs {
    match Cut(token, '=')
    case Some((k, v)) => attrs[k := v]
    case None => attrs[token := ""]
  }

  function AttrsOf(tokens: seq<string>): Attrs {
    if tokens == [] then map[] else AddAttr(AttrsOf(tokens[..|tokens| - 1]), tokens[|tokens| - 1])
  }

  function TakesId(kind: Kind, parts: seq<string>): bool {
    kind != KNext && |parts| > 1 && !Contains(parts[1], '=')
  }

  /** A header line, already trimmed and known to start with an at sign. */
  function HeaderOf(line: string): Option<Header> {
    var parts := Fields(line);
    if parts == [] then None
    else
      var tag := parts[0];
      match KindNamed(if tag != "" && tag[0] == '@' then tag[1..] else tag)
      case None => None
      case Some(kind) =>
        if TakesId(kind, parts) then Some(Header(kind, parts[1], AttrsOf(parts[2..])))
        else Some(Header(kind, "", AttrsOf(parts[1..])))
  }

  function BodyLineOf(line: string): Result<(string, string)> {
    match Cut(line, ':')
    case None => Err(0, ExpectedKeyValue)
    case Some((k, v)) =>
      var key, val := TrimSpace(k), TrimSpace(v);
      if val != "" && (val[0] == '"' || val[0] == '`') then
        match Unquote(val)
        case None => Err(0, InvalidQuotedValue)
        case Some(text) => Ok((key, text))
      else Ok((key, val))
  }

  // ---- one record ----

  function StrengthOf(attrs: Attrs): string {
    if "strength" in attrs then attrs["strength"]
    else if "hard" in attrs then "hard"
    else "soft"
  }

  function FirstNonEmpty(a: string, b: string): string {
    if a != "" then a else b
  }

  function Build(kind: Kind, id: string, attrs: Attrs, body: Attrs): Result<Record> {
    if id == "" && kind != KNext && kind != KFault then Err(0, MissingId)
    else
      match kind
      case KTask => Ok(Task(id, Get(attrs, "phase"), Get(attrs, "priority"), Get(body, "goal"), Get(body, "branch"), Get(body, "commit"), Get(body, "dirty")))
      case KConstraint => Ok(Constraint(id, StrengthOf(attrs), Get(attrs, "source"), Get(body, "text"), Get(body, "scope")))
      case KFailure =>
        var exit := if Get(body, "exit") == "" then Some(0) else Atoi(Get(body, "exit"));
        (match exit
         case None => Err(0, InvalidExit)
         case Some(n) => Ok(Failure(id, Get(body, "cmd"), n, Get(body, "err"), Get(body, "file_hint"), Get(body, "raw"))))
      case KDecision => Ok(Decision(id, Get(body, "chosen"), Get(body, "because"), Get(body, "refs"), Get(body, "scope")))
      case KAvoid => Ok(Avoid(id, Get(attrs, "reason"), Get(body, "text"), Get(body, "ref")))
      case KAssumption => Ok(Assumption(id, Get(attrs, "status"), Get(body, "text"), Get(body, "evidence")))
      case KInvalidated => Ok(Invalidated(id, Get(body, "target"), Get(body, "reason")))
      case KNext => Ok(NextStep(Get(body, "action"), Get(body, "target"), Get(body, "question")))
      case KPage => Ok(PageRecord(id, Get(attrs, "kind"), Get(attrs, "tier"), Get(body, "summary"), Get(body, "refs"), Get(body, "scope"), Get(body, "branch"), false))
      case KFault => Ok(Fault(id, FirstNonEmpty(Get(attrs, "kind"), Get(body, "kind")), FirstNonEmpty(Get(attrs, "target"), Get(body, "target"))))
  }

  // ---- many lines ----

  datatype Open = Open(header: Header, body: Attrs, start: nat)

  /** The records done so far, and the one still collecting body lines. */
  datatype State = State(done: seq<Record>, current: Option<Open>)

  function Emit(st: State): Result<State> {
    match st.current
    case None => Ok(st)
    case Some(open) =>
      match Build(open.header.kind, open.header.id, open.header.attrs, open.body)
      case Err(_, reason) => Err(open.start, reason)
      case Ok(rec) => Ok(State(st.done + [rec], None))
  }

  function Step(st: State, raw: string, lineNo: nat): Result<State> {
    var line := TrimSpace(TrimReturns(raw));
    if line == "" then Emit(st)
    else if line[0] == '#' then Ok(st)
    else if line[0] == '@' then
      match Emit(st)
      case Err(n, reason) => Err(n, reason)
      case Ok(emitted) =>
        match HeaderOf(line)
        case None => Err(lineNo, UnknownKind)
        case Some(header) => Ok(State(emitted.done, Some(Open(header, map[], lineNo))))
    else
      match st.current
      case None => Err(lineNo, BodyWithoutHeader)
      case Some(open) =>
        match BodyLineOf(line)
        case Err(_, reason) => Err(lineNo, reason)
        case Ok((k, v)) => Ok(st.(current := Some(open.(body := open.body[k := v]))))
  }

  function Steps(st: State, lines: seq<string>, lineNo: nat): Result<State>
    decreases |lines|
  {
    if lines == [] then Ok(st)
    else
      match Step(st, lines[0], lineNo)
      case Err(n, reason) => Err(n, reason)
      case Ok(next) => Steps(next, lines[1..], lineNo + 1)
  }

  function ParseText(src: string): Result<seq<Record>> {
    match Steps(State([], None), SplitLines(src), 1)
    case Err(n, reason) => Err(n, reason)
    case Ok(st) =>
      match Emit(st)
      case Err(n, reason) => Err(n, reason)
      case Ok(end) => Ok(end.done)
  }

  // ---- the loops ----

  method ParseHeader(line: string) returns (header: Option<Header>)
    ensures header == HeaderOf(line)
  {
    hide Fields, KindNamed, AttrsOf, Contains;
    var parts := Fields(line);
    if parts == [] {
      return None;
    }
    var tag := if parts[0] != "" && parts[0][0] == '@' then parts[0][1..] else parts[0];
    var kind := KindNamed(tag);
    if kind == None {
      return None;
    }
    var id, start := "", 1;
    if kind.value != KNext && |parts| > 1 && !Contains(parts[1], '=') {
      id, start := parts[1], 2;
    }
    var attrs := ParseAttrs(parts[start..]);
    header := Some(Header(kind.value, id, attrs));
  }

  method ParseAttrs(tokens: seq<string>) returns (attrs: Attrs)
    ensures attrs == AttrsOf(tokens)
  {
    hide Cut;
    attrs := map[];
    var i := 0;
    while i < |tokens|
      invariant 0 <= i <= |tokens|
      invariant attrs == AttrsOf(tokens[..i])
    {
      assert tokens[..i + 1][..i] == tokens[..i];
      match Cut(tokens[i], '=') {
        case Some((k, v)) => attrs := attrs[k := v];
        case None => attrs := attrs[tokens[i] := ""];
      }
      i := i + 1;
    }
    assert tokens[..i] == tokens;
  }

  lemma {:induction false} StepsAppend(st: State, a: seq<string>, b: seq<string>, lineNo: nat)
    ensures Steps(st, a + b, lineNo) ==
            match Steps(st, a, lineNo)
            case Err(n, reason) => Err(n, reason)
            case Ok(mid) => Steps(mid, b, lineNo + |a|)
    decreases |a|
  {
    hide Step;
    if a == [] {
      assert a + b == b;
    } else {
      assert (a + b)[1..] == a[1..] + b && (a + b)[0] == a[0];
      match Step(st, a[0], lineNo)
      case Err(_, _) =>
      case Ok(next) => StepsAppend(next, a[1..], b, lineNo + 1);
    }
  }

  /** Once a line fails, the text fails the same way, whatever follows. */
  lemma StepsFail(st: State, lines: seq<string>, k: nat, lineNo: nat)
    requires k <= |lines| && Steps(st, lines[..k], lineNo).Err?
    ensures Steps(st, lines, lineNo) == Steps(st, lines[..k], lineNo)
  {
    assert lines == lines[..k] + lines[k..];
    StepsAppend(st, lines[..k], lines[k..], lineNo);
  }

  lemma OneStep(st: State, line: string, lineNo: nat)
    ensures Steps(st, [line], lineNo) == Step(st, line, lineNo)
  {
    hide Step;
    assert [line][1..] == [];
    match Step(st, line, lineNo)
    case Err(_, _) =>
    case Ok(next) => assert Steps(next, [], lineNo + 1) == Ok(next);
  }

  lemma StepsOneMore(st: State, lines: seq<string>, k: nat, mid: State)
    requires k < |lines| && Steps(st, lines[..k], 1) == Ok(mid)
    ensures Steps(st, lines[..k + 1], 1) == Step(mid, lines[k], k + 1)
  {
    hide Step, Steps;
    assert lines[..k + 1] == lines[..k] + [lines[k]];
    StepsAppend(st, lines[..k], [lines[k]], 1);
    OneStep(mid, lines[k], k + 1);
  }

  method Parse(src: string) returns (result: Result<seq<Record>>)
    ensures result == ParseText(src)
  {
    hide Steps, Step, SplitLines;
    var lines := SplitLines(src);
    var st := State([], None);
    var i := 0;
    assert lines[..0] == [];
    StepsNone(st);
    while i < |lines|
      invariant 0 <= i <= |lines|
      invariant Steps(State([], None), lines[..i], 1) == Ok(st)
    {
      StepsOneMore(State([], None), lines, i, st);
      var next := ParseLine(st, lines[i], i + 1);
      if next.Err? {
        StepsFail(State([], None), lines, i + 1, 1);
        return Err(next.line, next.reason);
      }
      st := next.value;
      i := i + 1;
    }
    assert lines[..i] == lines;
    var end := Emit(st);
    result := if end.Ok? then Ok(end.value.done) else Err(end.line, end.reason);
  }

  lemma StepsNone(st: State)
    ensures Steps(st, [], 1) == Ok(st)
  {
  }

  /** The body of the line loop. */
  method ParseLine(st: State, raw: string, lineNo: nat) returns (next: Result<State>)
    ensures next == Step(st, raw, lineNo)
  {
    var line := TrimSpace(TrimReturns(raw));
    if line == "" {
      return Emit(st);
    }
    if line[0] == '#' {
      return Ok(st);
    }
    if line[0] == '@' {
      var emitted := Emit(st);
      if emitted.Err? {
        return emitted;
      }
      var header := ParseHeader(line);
      if header == None {
        return Err(lineNo, UnknownKind);
      }
      return Ok(State(emitted.value.done, Some(Open(header.value, map[], lineNo))));
    }
    if st.current == None {
      return Err(lineNo, BodyWithoutHeader);
    }
    var field := BodyLineOf(line);
    if field.Err? {
      return Err(lineNo, field.reason);
    }
    var open := st.current.value;
    next := Ok(st.(current := Some(open.(body := open.body[field.value.0 := field.value.1]))));
  }
}
