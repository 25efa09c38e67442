/** Quoted values: double quotes with escapes, or back quotes verbatim. */
module Quoting {
  import opened Text

  /** Which characters beyond ASCII print as themselves; every result holds for any choice. */
  type Printable = char -> bool

  predicate Prints(c: char, printable: Printable) {
    if c < '\U{0080}' then ' ' <= c <= '~' else printable(c)
  }

  // ---- hexadecimal ----

  function HexDigit(n: nat): char
    requires n < 16
  {
    if n < 10 then '0' + n as char else 'a' + (n - 10) as char
  }

  function HexValue(c: char): Option<nat> {
    if '0' <= c <= '9' then Some(c as int - '0' as int)
    else if 'a' <= c <= 'f' then Some(c as int - 'a' as int + 10)
    else if 'A' <= c <= 'F' then Some(c as int - 'A' as int + 10)
    else None
  }

  function Hex(n: nat, width: nat): (s: string)
    ensures |s| == width
    decreases width
  {
    if width == 0 then "" else Hex(n / 16, width - 1) + [HexDigit(n % 16)]
  }

  function ParseHex(s: string): Option<nat> {
    if s == "" then Some(0)
    else
      match (ParseHex(s[..|s| - 1]), HexValue(s[|s| - 1]))
      case (Some(high), Some(low)) => Some(high * 16 + low)
      case _ => None
  }

  function Pow16(k: nat): (p: nat)
    ensures p > 0
  {
    if k == 0 then 1 else 16 * Pow16(k - 1)
  }

  lemma {:induction false} ParseHexOfHex(n: nat, width: nat)
    requires n < Pow16(width)
    ensures ParseHex(Hex(n, width)) == Some(n)
    decreases width
  {
    if width > 0 {
      ParseHexOfHex(n / 16, width - 1);
      var s := Hex(n, width);
      assert s[..|s| - 1] == Hex(n / 16, width - 1) && s[|s| - 1] == HexDigit(n % 16);
    }
  }

  // ---- one character ----

  predicate ScalarValue(n: nat) {
    n < 0xD800 || 0xE000 <= n < 0x11_0000
  }

  function Escape(c: char, printable: Printable): string {
    if c == '"' then "\\\""
    else if c == '\\' then "\\\\"
    else if Prints(c, printable) then [c]
    else if c == '\U{0007}' then "\\a"
    else if c == '\U{0008}' then "\\b"
    else if c == '\U{000C}' then "\\f"
    else if c == '\n' then "\\n"
    else if c == '\r' then "\\r"
    else if c == '\t' then "\\t"
    else if c == '\U{000B}' then "\\v"
    else if c < ' ' || c == '\U{007F}' then "\\x" + Hex(c as int, 2)
    else if c as int < 0x1_0000 then "\\u" + Hex(c as int, 4)
    else "\\U" + Hex(c as int, 8)
  }

  /** The character an escape stands for, and how long the escape is.  A byte escape is a character
      only below 0x80. */
  function Unescape(s: string): Option<(char, nat)>
    requires s != ""
  {
    if s[0] == '"' || s[0] == '\n' then None
    else if s[0] != '\\' then Some((s[0], 1))
    else if |s| < 2 then None
    else if s[1] == 'a' then Some(('\U{0007}', 2))
    else if s[1] == 'b' then Some(('\U{0008}', 2))
    else if s[1] == 'f' then Some(('\U{000C}', 2))
    else if s[1] == 'n' then Some(('\n', 2))
    else if s[1] == 'r' then Some(('\r', 2))
    else if s[1] == 't' then Some(('\t', 2))
    else if s[1] == 'v' then Some(('\U{000B}', 2))
    else if s[1] == '\\' then Some(('\\', 2))
    else if s[1] == '"' then Some(('"', 2))
    else if s[1] == 'x' then UnescapeHex(s, 2, 0x80)
    else if s[1] == 'u' then UnescapeHex(s, 4, 0x11_0000)
    else if s[1] == 'U' then UnescapeHex(s, 8, 0x11_0000)
    else if '0' <= s[1] <= '7' then UnescapeOctal(s)
    else None
  }

  function UnescapeHex(s: string, width: nat, limit: nat): Option<(char, nat)>
    requires |s| >= 2
  {
    if |s| < 2 + width then None
    else
      match ParseHex(s[2..2 + width])
      case None => None
      case Some(n) => if n < limit && ScalarValue(n) then Some((n as char, 2 + width)) else None
  }

  function UnescapeOctal(s: string): Option<(char, nat)>
    requires |s| >= 2 && '0' <= s[1] <= '7'
  {
    if |s| < 4 || !('0' <= s[2] <= '7') || !('0' <= s[3] <= '7') then None
    else
      var n := (s[1] as int - '0' as int) * 64 + (s[2] as int - '0' as int) * 8 + (s[3] as int - '0' as int);
      if n < 0x80 then Some((n as char, 4)) else None
  }

  lemma UnescapeHexOfHex(n: nat, letter: char, width: nat, limit: nat, rest: string)
    requires n < Pow16(width) && n < limit && ScalarValue(n)
    ensures UnescapeHex(['\\', letter] + Hex(n, width) + rest, width, limit) == Some((n as char, 2 + width))
  {
    var s := ['\\', letter] + Hex(n, width) + rest;
    assert s[2..2 + width] == Hex(n, width);
    ParseHexOfHex(n, width);
  }

  predicate EscapesAsHex(c: char, printable: Printable) {
    && c != '"' && c != '\\' && !Prints(c, printable)
    && !('\U{0007}' <= c <= '\r')
  }

  /** Each escape reads back as the character it was made from, whatever follows. */
  lemma UnescapeOfEscape(c: char, rest: string, printable: Printable)
    ensures Unescape(Escape(c, printable) + rest) == Some((c, |Escape(c, printable)|))
  {
    if EscapesAsHex(c, printable) {
      UnescapeOfHexEscape(c, rest, printable);
    } else {
      var s := Escape(c, printable) + rest;
      hide Hex, ParseHex, UnescapeHex, UnescapeOctal;
    }
  }

  lemma UnescapeOfHexEscape(c: char, rest: string, printable: Printable)
    requires EscapesAsHex(c, printable)
    ensures Unescape(Escape(c, printable) + rest) == Some((c, |Escape(c, printable)|))
  {
    hide Hex, ParseHex, UnescapeHex, UnescapeOctal;
    var n := c as int;
    var s := Escape(c, printable) + rest;
    Powers();
    if s[1] == 'x' {
      UnescapeHexOfHex(n, 'x', 2, 0x80, rest);
      assert s == ['\\', 'x'] + Hex(n, 2) + rest;
    } else if s[1] == 'u' {
      UnescapeHexOfHex(n, 'u', 4, 0x11_0000, rest);
      assert s == ['\\', 'u'] + Hex(n, 4) + rest;
    } else {
      UnescapeHexOfHex(n, 'U', 8, 0x11_0000, rest);
      assert s == ['\\', 'U'] + Hex(n, 8) + rest;
    }
  }

  lemma Powers()
    ensures Pow16(2) == 256 && Pow16(4) == 0x1_0000 && Pow16(8) == 0x1_0000_0000
  {
  }

  /** No escape starts like the end of the value, and none breaks the line. */
  lemma EscapeStaysInside(c: char, printable: Printable)
    ensures Escape(c, printable) != "" && Escape(c, printable)[0] != '"' && '\n' !in Escape(c, printable)
  {
    HexIsPlain(c as int, 2);
    HexIsPlain(c as int, 4);
    HexIsPlain(c as int, 8);
  }

  lemma {:induction false} HexIsPlain(n: nat, width: nat)
    ensures '\n' !in Hex(n, width)
    decreases width
  {
    if width > 0 { HexIsPlain(n / 16, width - 1); }
  }

  // ---- whole values ----

  function Escaped(s: string, printable: Printable): string {
    if s == "" then "" else Escape(s[0], printable) + Escaped(s[1..], printable)
  }

  function Quote(s: string, printable: Printable): string {
    "\"" + Escaped(s, printable) + "\""
  }

  /** Characters up to the closing quote, which must end the text. */
  function UnquoteRest(s: string): Option<string>
    decreases |s|
  {
    if s == "" then None
    else if s[0] == '"' then (if |s| == 1 then Some("") else None)
    else
      match Unescape(s)
      case None => None
      case Some((c, n)) =>
        if n == 0 || n > |s| then None
        else
          match UnquoteRest(s[n..])
          case None => None
          case Some(t) => Some([c] + t)
  }

  function WithoutReturns(s: string): string {
    if s == "" then "" else (if s[0] == '\r' then "" else [s[0]]) + WithoutReturns(s[1..])
  }

  /** A quoted value.  Single quotes never reach this function. */
  function Unquote(s: string): Option<string> {
    if |s| < 2 then None
    else if s[0] == '`' then
      var end := IndexOf(s[1..], '`');
      if end + 2 == |s| then Some(WithoutReturns(s[1..|s| - 1])) else None
    else if s[0] == '"' then UnquoteRest(s[1..])
    else None
  }

  lemma {:induction false} UnquoteRestOfEscaped(s: string, printable: Printable)
    ensures UnquoteRest(Escaped(s, printable) + "\"") == Some(s)
  {
    if s == "" {
      assert Escaped(s, printable) + "\"" == "\"";
    } else {
      var e, tail := Escape(s[0], printable), Escaped(s[1..], printable) + "\"";
      var text := Escaped(s, printable) + "\"";
      assert text == e + tail;
      EscapeStaysInside(s[0], printable);
      UnescapeOfEscape(s[0], tail, printable);
      assert text[|e|..] == tail;
      UnquoteRestOfEscaped(s[1..], printable);
      assert [s[0]] + s[1..] == s;
    }
  }

  /** Double quoting is undone by unquoting. */
  lemma UnquoteOfQuote(s: string, printable: Printable)
    ensures Unquote(Quote(s, printable)) == Some(s)
  {
    UnquoteRestOfEscaped(s, printable);
    assert Quote(s, printable)[1..] == Escaped(s, printable) + "\"";
  }

  lemma {:induction false} WithoutReturnsOfNone(s: string)
    requires '\r' !in s
    ensures WithoutReturns(s) == s
  {
    if s != "" { WithoutReturnsOfNone(s[1..]); }
  }

  /** Back quotes keep a value verbatim if it has no back quote and no carriage return. */
  lemma UnquoteOfBackquote(s: string)
    requires '`' !in s && '\r' !in s
    ensures Unquote("`" + s + "`") == Some(s)
  {
    var q := "`" + s + "`";
    assert q[1..] == s + ['`'] + "";
    IndexOfFirst(s, '`', "");
    assert q[1..|q| - 1] == s;
    WithoutReturnsOfNone(s);
  }

  lemma {:induction false} EscapedIsOneLine(s: string, printable: Printable)
    ensures '\n' !in Escaped(s, printable)
  {
    if s != "" {
      EscapeStaysInside(s[0], printable);
      EscapedIsOneLine(s[1..], printable);
    }
  }
}
