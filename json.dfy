/** The part of JSON the code relies on: `JSON.stringify` of a string (the quoting and
    escaping it writes) and a reader for JSON string literals, so that each record the
    code serialises can be read back. No whitespace is written or accepted between
    tokens, as `JSON.stringify` writes none. */
module Json {
  import opened Wrappers

  /** Lower-case hexadecimal digit, as `JSON.stringify` writes in `\u00xx` escapes. */
  function HexDigit(n: nat): (c: char)
    requires n < 16
  {
    if n < 10 then ('0' as int + n) as char else ('a' as int + n - 10) as char
  }

  function HexValue(c: char): (r: Option<nat>)
    ensures r.Some? ==> r.value < 16
  {
    if '0' <= c <= '9' then Some(c as int - '0' as int)
    else if 'a' <= c <= 'f' then Some(c as int - 'a' as int + 10)
    else if 'A' <= c <= 'F' then Some(c as int - 'A' as int + 10)
    else None
  }

  /** What `JSON.stringify` writes for one character inside a string literal. */
  function EscapeChar(c: char): string
  {
    var n := c as int;
    if c == '"' then "\\\""
    else if c == '\\' then "\\\\"
    else if n == 0x08 then "\\b"
    else if n == 0x09 then "\\t"
    else if n == 0x0A then "\\n"
    else if n == 0x0C then "\\f"
    else if n == 0x0D then "\\r"
    else if n < 0x20 then "\\u00" + [HexDigit(n / 16), HexDigit(n % 16)]
    else [c]
  }

  function Escape(s: string): string
  {
    if s == [] then "" else EscapeChar(s[0]) + Escape(s[1..])
  }

  /** `JSON.stringify(s)` for a string `s`. */
  function Quote(s: string): string
  {
    "\"" + Escape(s) + "\""
  }

  /** Reads the escape sequence after a backslash: the character it stands for and
      the input after it. */
  function Unescape(u: string): (r: Option<(char, string)>)
    ensures r.Some? ==> |r.value.1| < |u|
  {
    if u == [] then None
    else if u[0] == '"' || u[0] == '\\' || u[0] == '/' then Some((u[0], u[1..]))
    else if u[0] == 'b' then Some((0x08 as char, u[1..]))
    else if u[0] == 't' then Some((0x09 as char, u[1..]))
    else if u[0] == 'n' then Some((0x0A as char, u[1..]))
    else if u[0] == 'f' then Some((0x0C as char, u[1..]))
    else if u[0] == 'r' then Some((0x0D as char, u[1..]))
    else if u[0] == 'u' && |u| >= 5 then
      match (HexValue(u[1]), HexValue(u[2]), HexValue(u[3]), HexValue(u[4]))
      case (Some(a), Some(b), Some(c), Some(d)) =>
        var n := 4096 * a + 256 * b + 16 * c + d;
        if n < 0xD800 || 0xE000 <= n then Some((n as char, u[5..])) else None
      case _ => None
    else None
  }

  function Prepend(c: char, r: Option<(string, string)>): Option<(string, string)>
  {
    match r
    case None => None
    case Some((s, rest)) => Some(([c] + s, rest))
  }

  /** Reads the characters of a string literal up to and including its closing quote:
      the decoded text and the input after the quote. */
  function ReadChars(t: string): (r: Option<(string, string)>)
    ensures r.Some? ==> |r.value.1| < |t|
    decreases |t|
  {
    if t == [] then None
    else if t[0] == '"' then Some(("", t[1..]))
    else if t[0] == '\\' then
      match Unescape(t[1..])
      case None => None
      case Some((c, rest)) => Prepend(c, ReadChars(rest))
    else if (t[0] as int) < 0x20 then None
    else Prepend(t[0], ReadChars(t[1..]))
  }

  /** Reads one string literal at the start of `t`: its value and the input after it. */
  function ReadString(t: string): (r: Option<(string, string)>)
    ensures r.Some? ==> |r.value.1| < |t|
  {
    if t != [] && t[0] == '"' then ReadChars(t[1..]) else None
  }

  /** Consumes the literal text `lit` at the start of `t`. */
  function Expect(lit: string, t: string): (r: Option<string>)
    ensures r.Some? ==> lit <= t && r.value == t[|lit|..]
    ensures lit <= t ==> r.Some?
  {
    if lit <= t then Some(t[|lit|..]) else None
  }

  lemma ExpectLiteral(lit: string, rest: string)
    ensures Expect(lit, lit + rest) == Some(rest)
  {
    assert (lit + rest)[..|lit|] == lit;
    assert (lit + rest)[|lit|..] == rest;
  }

  /** The reader takes back exactly one escaped character. */
  lemma ReadEscapedChar(c: char, t: string)
    ensures ReadChars(EscapeChar(c) + t) == Prepend(c, ReadChars(t))
  {
    var n := c as int;
    if c == '"' || c == '\\' || n == 0x08 || n == 0x09 || n == 0x0A || n == 0x0C || n == 0x0D {
      ReadShortEscape(c, t);
    } else if n < 0x20 {
      ReadUnicodeEscape(c, t);
    } else {
      var e := EscapeChar(c);
      assert e == [c];
      assert (e + t)[1..] == t;
    }
  }

  /** A quote, a backslash or a control character with a short escape. */
  lemma ReadShortEscape(c: char, t: string)
    requires c == '"' || c == '\\' || c as int in {0x08, 0x09, 0x0A, 0x0C, 0x0D}
    ensures ReadChars(EscapeChar(c) + t) == Prepend(c, ReadChars(t))
  {
    var e := EscapeChar(c);
    var u := (e + t)[1..];
    assert |e| == 2 && e[0] == '\\' && u == [e[1]] + t;
    assert u[1..] == t;
  }

  /** Any other control character, written as `\u00` and two hexadecimal digits. */
  lemma ReadUnicodeEscape(c: char, t: string)
    requires c as int < 0x20 && c as int !in {0x08, 0x09, 0x0A, 0x0C, 0x0D}
    ensures ReadChars(EscapeChar(c) + t) == Prepend(c, ReadChars(t))
  {
    var n := c as int;
    var e := EscapeChar(c);
    var u := (e + t)[1..];
    assert e == "\\u00" + [HexDigit(n / 16), HexDigit(n % 16)];
    assert u == "u00" + [HexDigit(n / 16), HexDigit(n % 16)] + t;
    assert HexValue(u[1]) == Some(0) && HexValue(u[2]) == Some(0);
    assert HexValue(u[3]) == Some(n / 16) && HexValue(u[4]) == Some(n % 16);
    assert u[5..] == t;
  }

  /** The reader recovers an escaped string and stops right after its closing quote. */
  lemma {:induction false} ReadEscaped(s: string, rest: string)
    ensures ReadChars(Escape(s) + "\"" + rest) == Some((s, rest))
  {
    if s == [] {
      assert Escape(s) + "\"" + rest == "\"" + rest;
    } else {
      assert Escape(s) + "\"" + rest == EscapeChar(s[0]) + (Escape(s[1..]) + "\"" + rest);
      ReadEscapedChar(s[0], Escape(s[1..]) + "\"" + rest);
      ReadEscaped(s[1..], rest);
      assert [s[0]] + s[1..] == s;
    }
  }

  /** Reading back what `JSON.stringify` wrote for a string gives the string. */
  lemma QuoteRoundTrip(s: string, rest: string)
    ensures ReadString(Quote(s) + rest) == Some((s, rest))
  {
    assert Quote(s) + rest == "\"" + (Escape(s) + "\"" + rest);
    ReadEscaped(s, rest);
  }

  function BoolLiteral(b: bool): string
  {
    if b then "true" else "false"
  }

  /** Reads `true` or `false` at the start of `t`. */
  function ReadBool(t: string): (r: Option<(bool, string)>)
    ensures r.Some? ==> |r.value.1| < |t|
  {
    if "true" <= t then Some((true, t[4..]))
    else if "false" <= t then Some((false, t[5..]))
    else None
  }

  lemma BoolRoundTrip(b: bool, rest: string)
    ensures ReadBool(BoolLiteral(b) + rest) == Some((b, rest))
  {
    var t := BoolLiteral(b) + rest;
    if b {
      assert t[..4] == "true" && t[4..] == rest;
    } else {
      assert t[..4] != "true" by { assert t[0] == 'f'; }
      assert t[..5] == "false" && t[5..] == rest;
    }
  }
}
