/** The string primitives the record format is built on. */
module Text {

  datatype Option<+T> = None | Some(value: T)

  /** White space as Unicode defines it. */
  predicate IsSpace(c: char) {
    || '\t' <= c <= '\r' || c == ' ' || c == '\U{0085}' || c == '\U{00A0}' || c == '\U{1680}'
    || '\U{2000}' <= c <= '\U{200a}' || c == '\U{2028}' || c == '\U{2029}' || c == '\U{202f}'
    || c == '\U{205f}' || c == '\U{3000}'
  }

  predicate HasSpace(s: string) {
    exists i :: 0 <= i < |s| && IsSpace(s[i])
  }

  predicate Contains(s: string, c: char) {
    c in s
  }

  predicate ContainsAny(s: string, chars: string) {
    exists i :: 0 <= i < |s| && s[i] in chars
  }

  // ---- trimming ----

  function TrimLeft(s: string): (t: string)
    ensures |t| <= |s|
  {
    if s != "" && IsSpace(s[0]) then TrimLeft(s[1..]) else s
  }

  function TrimRight(s: string): (t: string)
    ensures |t| <= |s|
  {
    if s != "" && IsSpace(s[|s| - 1]) then TrimRight(s[..|s| - 1]) else s
  }

  function TrimSpace(s: string): string {
    TrimRight(TrimLeft(s))
  }

  /** Carriage returns dropped from the end of a line. */
  function TrimReturns(s: string): string {
    if s != "" && s[|s| - 1] == '\r' then TrimReturns(s[..|s| - 1]) else s
  }

  predicate CleanEdges(s: string) {
    s == "" || (!IsSpace(s[0]) && !IsSpace(s[|s| - 1]))
  }

  lemma {:induction false} TrimRightKeepsPrefix(s: string)
    ensures exists n :: 0 <= n <= |s| && TrimRight(s) == s[..n]
    ensures TrimRight(s) == "" || !IsSpace(TrimRight(s)[|TrimRight(s)| - 1])
  {
    if s != "" && IsSpace(s[|s| - 1]) {
      TrimRightKeepsPrefix(s[..|s| - 1]);
      var n :| 0 <= n <= |s| - 1 && TrimRight(s) == s[..|s| - 1][..n];
      assert TrimRight(s) == s[..n];
    } else {
      assert TrimRight(s) == s[..|s|];
    }
  }

  lemma {:induction false} TrimLeftStarts(s: string)
    ensures TrimLeft(s) == "" || !IsSpace(TrimLeft(s)[0])
  {
    if s != "" && IsSpace(s[0]) { TrimLeftStarts(s[1..]); }
  }

  /** A string survives trimming exactly when neither edge is white space. */
  lemma TrimSpaceKeepsCleanEdges(s: string)
    ensures TrimSpace(s) == s <==> CleanEdges(s)
  {
    TrimLeftStarts(s);
    TrimRightKeepsPrefix(TrimLeft(s));
    if TrimSpace(s) == s {
      assert |TrimLeft(s)| == |s|;
    }
  }

  lemma {:induction false} TrimLeftPadding(s: string, t: string)
    requires forall i :: 0 <= i < |s| ==> IsSpace(s[i])
    ensures TrimLeft(s + t) == TrimLeft(t)
  {
    if s == "" {
      assert s + t == t;
    } else {
      assert (s + t)[1..] == s[1..] + t && (s + t)[0] == s[0];
      TrimLeftPadding(s[1..], t);
    }
  }

  // ---- cutting ----

  function IndexOf(s: string, c: char): (i: nat)
    ensures i <= |s| && (forall j :: 0 <= j < i ==> s[j] != c) && (i < |s| ==> s[i] == c)
  {
    if s == "" || s[0] == c then 0 else
      var i := IndexOf(s[1..], c);
      assert forall j :: 0 < j < i + 1 ==> s[j] == s[1..][j - 1];
      i + 1
  }

  /** The text before and after the first separator, if there is one. */
  function Cut(s: string, c: char): Option<(string, string)> {
    var i := IndexOf(s, c);
    if i < |s| then Some((s[..i], s[i + 1..])) else None
  }

  lemma IndexOfFirst(a: string, c: char, b: string)
    requires c !in a
    ensures IndexOf(a + [c] + b, c) == |a|
  {
    var s := a + [c] + b;
    assert s[|a|] == c;
    assert forall j :: 0 <= j < |a| ==> s[j] == a[j] && a[j] != c;
  }

  lemma CutAtFirst(a: string, c: char, b: string)
    requires c !in a
    ensures Cut(a + [c] + b, c) == Some((a, b))
  {
    IndexOfFirst(a, c, b);
    var s := a + [c] + b;
    assert s[..|a|] == a && s[|a| + 1..] == b;
  }

  lemma CutAbsent(s: string, c: char)
    requires c !in s
    ensures Cut(s, c) == None
  {
  }

  // ---- lines ----

  function SplitLines(s: string): (lines: seq<string>)
    ensures |lines| > 0
    decreases |s|
  {
    match Cut(s, '\n')
    case None => [s]
    case Some((line, rest)) => [line] + SplitLines(rest)
  }

  /** Every line ended by a newline. */
  function JoinLines(lines: seq<string>): string {
    if lines == [] then "" else lines[0] + "\n" + JoinLines(lines[1..])
  }

  ghost predicate OneLine(s: string) {
    '\n' !in s
  }

  /** Splitting what was joined gives the lines back, and the empty rest after the last newline. */
  lemma {:induction false} SplitLinesOfJoin(lines: seq<string>, rest: string)
    requires forall i :: 0 <= i < |lines| ==> OneLine(lines[i])
    ensures SplitLines(JoinLines(lines) + rest) == lines + SplitLines(rest)
  {
    if lines == [] {
      assert JoinLines(lines) + rest == rest;
      assert lines + SplitLines(rest) == SplitLines(rest);
    } else {
      hide SplitLines;
      var tail := JoinLines(lines[1..]) + rest;
      assert OneLine(lines[0]);
      calc {
        SplitLines(JoinLines(lines) + rest);
        { assert JoinLines(lines) + rest == lines[0] + ['\n'] + tail; }
        SplitLines(lines[0] + ['\n'] + tail);
        { SplitFirstLine(lines[0], tail); }
        [lines[0]] + SplitLines(tail);
        { SplitLinesOfJoin(lines[1..], rest); }
        [lines[0]] + (lines[1..] + SplitLines(rest));
        { assert [lines[0]] + lines[1..] == lines; }
        lines + SplitLines(rest);
      }
    }
  }

  lemma SplitFirstLine(line: string, tail: string)
    requires OneLine(line)
    ensures SplitLines(line + ['\n'] + tail) == [line] + SplitLines(tail)
  {
    CutAtFirst(line, '\n', tail);
  }

  lemma {:induction false} JoinLinesAppend(a: seq<string>, b: seq<string>)
    ensures JoinLines(a + b) == JoinLines(a) + JoinLines(b)
  {
    if a == [] {
      assert a + b == b;
    } else {
      assert (a + b)[1..] == a[1..] + b && (a + b)[0] == a[0];
      JoinLinesAppend(a[1..], b);
    }
  }

  // ---- fields ----

  /** Length of the leading run without white space. */
  function TokenLength(s: string): (n: nat)
    ensures n <= |s| && (forall j :: 0 <= j < n ==> !IsSpace(s[j])) && (n < |s| ==> IsSpace(s[n]))
  {
    if s == "" || IsSpace(s[0]) then 0 else
      var n := TokenLength(s[1..]);
      assert forall j :: 0 < j < n + 1 ==> s[j] == s[1..][j - 1];
      n + 1
  }

  /** The maximal runs without white space. */
  function Fields(s: string): (fields: seq<string>)
    decreases |s|
  {
    var t := TrimLeft(s);
    if t == "" then []
    else
      TrimLeftStarts(s);
      [t[..TokenLength(t)]] + Fields(t[TokenLength(t)..])
  }

  predicate Token(s: string) {
    s != "" && !HasSpace(s)
  }

  lemma TokenLengthAt(t: string, rest: string)
    requires !HasSpace(t) && (rest == "" || IsSpace(rest[0]))
    ensures TokenLength(t + rest) == |t|
  {
    assert forall i :: 0 <= i < |t| ==> (t + rest)[i] == t[i] && !IsSpace(t[i]);
    assert rest != "" ==> (t + rest)[|t|] == rest[0];
  }

  /** Tokens separated by single blanks are the fields of their line. */
  function JoinTokens(tokens: seq<string>): string {
    if tokens == [] then "" else " " + tokens[0] + JoinTokens(tokens[1..])
  }

  lemma {:induction false} FieldsOfTokens(first: string, tokens: seq<string>)
    requires Token(first) && forall i :: 0 <= i < |tokens| ==> Token(tokens[i])
    ensures Fields(first + JoinTokens(tokens)) == [first] + tokens
    decreases |tokens|
  {
    var rest := JoinTokens(tokens);
    var s := first + rest;
    assert s[0] == first[0] && !IsSpace(first[0]);
    assert TrimLeft(s) == s;
    TokenLengthAt(first, rest);
    assert s[..|first|] == first && s[|first|..] == rest;
    if tokens == [] {
      assert TrimLeft(rest) == "";
    } else {
      var next := tokens[0] + JoinTokens(tokens[1..]);
      assert rest == " " + next;
      assert Token(tokens[0]);
      assert next[0] == tokens[0][0] && !IsSpace(tokens[0][0]);
      TrimLeftPadding(" ", next);
      FieldsOfTokens(tokens[0], tokens[1..]);
      assert Fields(rest) == Fields(next) by {
        assert TrimLeft(next) == next && TrimLeft(rest) == next;
      }
      assert tokens == [tokens[0]] + tokens[1..];
    }
  }

  // ---- numbers ----

  function Digit(n: nat): char
    requires n < 10
  {
    '0' + n as char
  }

  function Decimal(n: nat): (s: string)
    ensures s != ""
  {
    if n < 10 then [Digit(n)] else Decimal(n / 10) + [Digit(n % 10)]
  }

  function Itoa(n: int): string {
    if n < 0 then "-" + Decimal(-n) else Decimal(n)
  }

  function ParseDigits(s: string): Option<nat> {
    if s == "" then None
    else
      var d := s[|s| - 1];
      if !('0' <= d <= '9') then None
      else if |s| == 1 then Some(d as int - '0' as int)
      else
        match ParseDigits(s[..|s| - 1])
        case None => None
        case Some(n) => Some(n * 10 + (d as int - '0' as int))
  }

  const MaxInt64: int := 0x7fff_ffff_ffff_ffff
  const MinInt64: int := -0x8000_0000_0000_0000

  /** Decimal to a 64-bit integer, with an optional sign. */
  function Atoi(s: string): Option<int> {
    var negative := s != "" && s[0] == '-';
    var digits := if s != "" && (s[0] == '-' || s[0] == '+') then s[1..] else s;
    match ParseDigits(digits)
    case None => None
    case Some(n) =>
      var m: int := n;
      var v := if negative then -m else m;
      if MinInt64 <= v <= MaxInt64 then Some(v) else None
  }

  lemma {:induction false} ParseDigitsOfDecimal(n: nat)
    ensures ParseDigits(Decimal(n)) == Some(n)
    ensures forall i :: 0 <= i < |Decimal(n)| ==> '0' <= Decimal(n)[i] <= '9'
  {
    if n >= 10 {
      ParseDigitsOfDecimal(n / 10);
      var s := Decimal(n);
      assert s[..|s| - 1] == Decimal(n / 10) && s[|s| - 1] == Digit(n % 10);
    }
  }

  /** Digits are read with their sign. */
  lemma AtoiOfDigits(n: nat)
    requires n <= MaxInt64
    ensures Atoi(Decimal(n)) == Some(n)
  {
    ParseDigitsOfDecimal(n);
    hide Decimal, ParseDigits;
    assert '0' <= Decimal(n)[0] <= '9';
  }

  lemma AtoiOfSigned(n: int)
    requires MinInt64 <= n < 0
    ensures Atoi("-" + Decimal(-n)) == Some(n)
  {
    ParseDigitsOfDecimal(-n);
    hide Decimal, ParseDigits;
    assert ("-" + Decimal(-n))[1..] == Decimal(-n);
  }

  /** Every 64-bit integer survives printing and parsing. */
  lemma AtoiOfItoa(n: int)
    requires MinInt64 <= n <= MaxInt64
    ensures Atoi(Itoa(n)) == Some(n)
  {
    hide Atoi, Decimal;
    if n < 0 { AtoiOfSigned(n); } else { AtoiOfDigits(n); }
  }
}
