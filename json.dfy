/**
 * JSON values and `JSON.stringify`, with the string escaping of section 7 of
 * RFC 8259 as ECMAScript's QuoteJSONString applies it. Numbers are limited to
 * integers. `Unescape` is the reading direction of that escaping, the part of
 * `JSON.parse` that turns the body of a string literal back into text.
 */
module Json {
  import opened Wrappers
  import opened Text

  datatype Value =
    | JNull
    | JBool(b: bool)
    | JNumber(n: int)
    | JString(s: string)
    | JArray(items: seq<Value>)
    | JObject(members: seq<(string, Value)>)

  /** No control character (below U+0020) anywhere: in particular no line feed and no carriage return. */
  predicate Printable(s: string) {
    forall i :: 0 <= i < |s| ==> s[i] >= ' '
  }

  function HexDigit(d: nat): char
    requires d < 16
  {
    "0123456789abcdef"[d]
  }

  /** The escape `JSON.stringify` writes for one character of a string. */
  function EscapeChar(c: char): (r: string)
    ensures r != [] && Printable(r)
    ensures r[0] == '\\' || (r == [c] && c != '"' && c != '\\' && c >= ' ')
    ensures c >= ' ' && c != '"' && c != '\\' ==> r == [c]
  {
    if c == '"' then "\\\""
    else if c == '\\' then "\\\\"
    else if c == '\U{8}' then "\\b"
    else if c == '\t' then "\\t"
    else if c == '\n' then "\\n"
    else if c == '\U{C}' then "\\f"
    else if c == '\r' then "\\r"
    else if c < ' ' then "\\u00" + [HexDigit(c as int / 16), HexDigit(c as int % 16)]
    else [c]
  }

  function Escape(s: string): (r: string)
    ensures Printable(r)
  {
    if s == [] then [] else EscapeChar(s[0]) + Escape(s[1..])
  }

  /** Text with no control character, quote or backslash is written as it is. */
  lemma {:induction false} EscapePlain(s: string)
    requires forall i :: 0 <= i < |s| ==> s[i] >= ' ' && s[i] != '"' && s[i] != '\\'
    ensures Escape(s) == s
  {
    if s != [] {
      EscapePlain(s[1..]);
      assert [s[0]] + s[1..] == s;
    }
  }

  /** A string literal: the escaped text between double quotes. */
  function Quote(s: string): (r: string)
    ensures Printable(r)
  {
    "\"" + Escape(s) + "\""
  }

  /** `JSON.stringify(v)` with no indentation: no white space between tokens. */
  function Stringify(v: Value): string
    decreases v
  {
    match v
    case JNull => "null"
    case JBool(b) => if b then "true" else "false"
    case JNumber(n) => IntToString(n)
    case JString(s) => Quote(s)
    case JArray(items) =>
      "[" + Join(seq(|items|, i requires 0 <= i < |items| => Stringify(items[i])), ",") + "]"
    case JObject(ms) =>
      "{" + Join(seq(|ms|, i requires 0 <= i < |ms| => Quote(ms[i].0) + ":" + Stringify(ms[i].1)), ",") + "}"
  }

  lemma {:induction false} JoinPrintable(parts: seq<string>, sep: string)
    requires forall k :: 0 <= k < |parts| ==> Printable(parts[k])
    requires Printable(sep)
    ensures Printable(Join(parts, sep))
  {
    if |parts| > 1 {
      JoinPrintable(parts[1..], sep);
    }
  }

  /**
   * Every serialised value is free of control characters, so a JSON text never
   * holds a raw line break, whatever the strings inside it contain.
   */
  lemma {:induction false} StringifyPrintable(v: Value)
    ensures Printable(Stringify(v))
    decreases v
  {
    match v
    case JNull =>
    case JBool(b) =>
    case JNumber(n) =>
      assert Printable(NatToString(if n < 0 then -n else n));
    case JString(s) =>
    case JArray(items) =>
      var parts := seq(|items|, i requires 0 <= i < |items| => Stringify(items[i]));
      forall k | 0 <= k < |parts| ensures Printable(parts[k]) {
        StringifyPrintable(items[k]);
      }
      JoinPrintable(parts, ",");
    case JObject(ms) =>
      var parts := seq(|ms|, i requires 0 <= i < |ms| => Quote(ms[i].0) + ":" + Stringify(ms[i].1));
      forall k | 0 <= k < |parts| ensures Printable(parts[k]) {
        StringifyPrintable(ms[k].1);
      }
      JoinPrintable(parts, ",");
  }

  function HexValue(c: char): (d: Option<nat>)
    ensures d.Some? ==> d.value < 16
  {
    if '0' <= c <= '9' then Some(c as int - '0' as int)
    else if 'a' <= c <= 'f' then Some(c as int - 'a' as int + 10)
    else if 'A' <= c <= 'F' then Some(c as int - 'A' as int + 10)
    else None
  }

  /** The code unit written by four hexadecimal digits. */
  function Hex4(h: string): (u: Option<nat>)
    requires |h| == 4
    ensures u.Some? ==> u.value < 0x10000
  {
    match (HexValue(h[0]), HexValue(h[1]), HexValue(h[2]), HexValue(h[3]))
    case (Some(a), Some(b), Some(c), Some(d)) => Some(4096 * a + 256 * b + 16 * c + d)
    case _ => None
  }

  /** The character a two-character escape `\e` stands for. */
  function ShortEscape(e: char): Option<char> {
    if e == '"' || e == '\\' || e == '/' then Some(e)
    else if e == 'b' then Some('\U{8}')
    else if e == 'f' then Some('\U{C}')
    else if e == 'n' then Some('\n')
    else if e == 'r' then Some('\r')
    else if e == 't' then Some('\t')
    else None
  }

  /** The character a `\uXXXX` escape stands for; none for a surrogate code unit. */
  function CodeUnitChar(h: string): Option<char>
    requires |h| == 4
  {
    match Hex4(h)
    case Some(u) => if u < 0xD800 || 0xE000 <= u then Some(u as char) else None
    case None => None
  }

  /**
   * The text a string literal's body denotes, or None when the body is not valid
   * JSON: a raw quote or control character, or an unknown escape. A `\u` escape
   * of a UTF-16 surrogate has no single-character reading here and also gives None.
   */
  function Unescape(t: string): Option<string>
    decreases |t|
  {
    if t == [] then Some([])
    else if t[0] == '\\' then
      if |t| < 2 then None
      else if ShortEscape(t[1]).Some? then Prepend(ShortEscape(t[1]).value, Unescape(t[2..]))
      else if t[1] == 'u' && |t| >= 6 && CodeUnitChar(t[2..6]).Some? then
        Prepend(CodeUnitChar(t[2..6]).value, Unescape(t[6..]))
      else None
    else if t[0] == '"' || t[0] < ' ' then None
    else Prepend(t[0], Unescape(t[1..]))
  }

  function Prepend(c: char, rest: Option<string>): Option<string> {
    match rest
    case Some(r) => Some([c] + r)
    case None => None
  }

  /** Reading back the escape of one character gives that character, whatever follows. */
  lemma UnescapeEscapeChar(c: char, rest: string)
    ensures Unescape(EscapeChar(c) + rest) == Prepend(c, Unescape(rest))
  {
    if c == '"' || c == '\\' || c == '\U{8}' || c == '\t' || c == '\n' || c == '\U{C}' || c == '\r' {
      UnescapeShortEscape(c, rest);
    } else if c < ' ' {
      UnescapeControlEscape(c, rest);
    } else {
      var t := EscapeChar(c) + rest;
      assert t[1..] == rest;
    }
  }

  lemma UnescapeShortEscape(c: char, rest: string)
    requires c == '"' || c == '\\' || c == '\U{8}' || c == '\t' || c == '\n' || c == '\U{C}' || c == '\r'
    ensures Unescape(EscapeChar(c) + rest) == Prepend(c, Unescape(rest))
  {
    var t := EscapeChar(c) + rest;
    assert |EscapeChar(c)| == 2 && t[0] == '\\';
    assert ShortEscape(t[1]) == Some(c);
    assert t[2..] == rest;
  }

  lemma UnescapeControlEscape(c: char, rest: string)
    requires c < ' '
    requires !(c == '\U{8}' || c == '\t' || c == '\n' || c == '\U{C}' || c == '\r')
    ensures Unescape(EscapeChar(c) + rest) == Prepend(c, Unescape(rest))
  {
    var h := ['0', '0', HexDigit(c as int / 16), HexDigit(c as int % 16)];
    assert EscapeChar(c) == "\\u" + h;
    var t := EscapeChar(c) + rest;
    assert t[1] == 'u' && ShortEscape(t[1]).None?;
    assert t[2..6] == h;
    ControlCodeUnit(c);
    assert t[6..] == rest;
  }

  /** The four hexadecimal digits written for a control character denote it. */
  lemma ControlCodeUnit(c: char)
    requires c < ' '
    ensures CodeUnitChar(['0', '0', HexDigit(c as int / 16), HexDigit(c as int % 16)]) == Some(c)
  {
    HexDigitValue(c as int / 16);
    HexDigitValue(c as int % 16);
  }

  lemma HexDigitValue(d: nat)
    requires d < 16
    ensures HexValue(HexDigit(d)) == Some(d)
  {
  }

  /** Reading an escaped string back gives the original text: the escaping loses nothing. */
  lemma {:induction false} UnescapeEscape(s: string)
    ensures Unescape(Escape(s)) == Some(s)
  {
    if s != [] {
      UnescapeEscape(s[1..]);
      UnescapeEscapeChar(s[0], Escape(s[1..]));
      assert [s[0]] + s[1..] == s;
    }
  }
}
