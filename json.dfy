/**
 * The part of JSON the streamed events need: `JSON.stringify` of a string
 * (its quoting and escaping) and the matching parse of a string literal,
 * with the round trip between the two.
 */
module Json {
  import opened Wrappers

  /** Lower-case hexadecimal digit, as `JSON.stringify` writes in `\u00XX`. */
  function HexDigit(n: nat): (c: char)
    requires n < 16
    ensures HexValue(c) == Some(n)
  {
    if n < 10 then ('0' as int + n) as char else ('a' as int + n - 10) as char
  }

  /** The value of a hexadecimal digit in either case. */
  function HexValue(c: char): Option<nat> {
    if '0' <= c <= '9' then Some(c as int - '0' as int)
    else if 'a' <= c <= 'f' then Some(c as int - 'a' as int + 10)
    else if 'A' <= c <= 'F' then Some(c as int - 'A' as int + 10)
    else None
  }

  /** How `JSON.stringify` writes one character inside a string literal. */
  function EscapeChar(c: char): string {
    if c == '"' then "\\\""
    else if c == '\\' then "\\\\"
    else if c == '\U{8}' then "\\b"
    else if c == '\U{C}' then "\\f"
    else if c == '\n' then "\\n"
    else if c == '\r' then "\\r"
    else if c == '\t' then "\\t"
    else if c as int < 0x20 then "\\u00" + [HexDigit(c as int / 16), HexDigit(c as int % 16)]
    else [c]
  }

  function Escape(s: string): string {
    if |s| == 0 then "" else EscapeChar(s[0]) + Escape(s[1..])
  }

  /** `JSON.stringify(s)` for a string `s`. */
  function Quote(s: string): string {
    "\"" + Escape(s) + "\""
  }

  /** The character a four-digit `\uXXXX` escape stands for, when it is one. */
  function UnicodeEscape(d: string): Option<char>
    requires |d| == 4
  {
    var h0, h1, h2, h3 := HexValue(d[0]), HexValue(d[1]), HexValue(d[2]), HexValue(d[3]);
    if h0.None? || h1.None? || h2.None? || h3.None? then None
    else
      var v := 4096 * h0.value + 256 * h1.value + 16 * h2.value + h3.value;
      if v < 0xD800 || 0xE000 <= v < 0x10000 then Some(v as char) else None
  }

  function Cons(c: char, r: Option<(string, string)>): Option<(string, string)> {
    match r
    case Some((s, rest)) => Some(([c] + s, rest))
    case None => None
  }

  /**
   * Parses the inside of a JSON string literal, from just after its opening
   * quote: the decoded string and the text after the closing quote, or None
   * when the literal is malformed.
   */
  function Unquote(t: string): Option<(string, string)>
    decreases |t|
  {
    if |t| == 0 then None
    else if t[0] == '"' then Some(("", t[1..]))
    else if t[0] == '\\' then
      if |t| < 2 then None
      else if t[1] == '"' then Cons('"', Unquote(t[2..]))
      else if t[1] == '\\' then Cons('\\', Unquote(t[2..]))
      else if t[1] == '/' then Cons('/', Unquote(t[2..]))
      else if t[1] == 'b' then Cons('\U{8}', Unquote(t[2..]))
      else if t[1] == 'f' then Cons('\U{C}', Unquote(t[2..]))
      else if t[1] == 'n' then Cons('\n', Unquote(t[2..]))
      else if t[1] == 'r' then Cons('\r', Unquote(t[2..]))
      else if t[1] == 't' then Cons('\t', Unquote(t[2..]))
      else if t[1] == 'u' && |t| >= 6 then
        match UnicodeEscape(t[2..6])
        case Some(c) => Cons(c, Unquote(t[6..]))
        case None => None
      else None
    else if t[0] as int < 0x20 then None
    else Cons(t[0], Unquote(t[1..]))
  }

  /** The characters `JSON.stringify` writes as a two-character escape. */
  predicate HasShortEscape(c: char) {
    c == '"' || c == '\\' || c == '\U{8}' || c == '\U{C}' || c == '\n' || c == '\r' || c == '\t'
  }

  /** Parsing one escaped character consumes exactly its escape. */
  lemma UnquoteEscapeChar(c: char, more: string)
    ensures Unquote(EscapeChar(c) + more) == Cons(c, Unquote(more))
  {
    if HasShortEscape(c) {
      UnquoteShortEscape(c, more);
    } else if c as int < 0x20 {
      UnquoteUnicodeEscape(c, more);
    } else {
      assert (EscapeChar(c) + more)[1..] == more;
    }
  }

  lemma UnquoteShortEscape(c: char, more: string)
    requires HasShortEscape(c)
    ensures Unquote(EscapeChar(c) + more) == Cons(c, Unquote(more))
  {
    assert (EscapeChar(c) + more)[2..] == more;
  }

  lemma UnquoteUnicodeEscape(c: char, more: string)
    requires !HasShortEscape(c) && c as int < 0x20
    ensures Unquote(EscapeChar(c) + more) == Cons(c, Unquote(more))
  {
    var t := EscapeChar(c) + more;
    var hi, lo := HexDigit(c as int / 16), HexDigit(c as int % 16);
    assert EscapeChar(c) == "\\u00" + [hi, lo];
    assert t[2..6] == ['0', '0', hi, lo];
    assert UnicodeEscape(t[2..6]) == Some(c);
    assert t[6..] == more;
  }

  /** Parsing what `JSON.stringify` wrote gives back the string and the text after it. */
  lemma {:induction false} UnquoteQuote(s: string, rest: string)
    ensures Unquote(Quote(s)[1..] + rest) == Some((s, rest))
  {
    QuoteTail(s);
    UnquoteEscaped(s, rest);
  }

  lemma QuoteTail(s: string)
    ensures Quote(s)[1..] == Escape(s) + "\""
  {
  }

  lemma {:induction false} UnquoteEscaped(s: string, rest: string)
    ensures Unquote(Escape(s) + "\"" + rest) == Some((s, rest))
    decreases |s|
  {
    if |s| == 0 {
      assert Escape(s) + "\"" + rest == "\"" + rest;
    } else {
      var more := Escape(s[1..]) + "\"" + rest;
      assert Escape(s) + "\"" + rest == EscapeChar(s[0]) + more;
      UnquoteEscapeChar(s[0], more);
      UnquoteEscaped(s[1..], rest);
      assert [s[0]] + s[1..] == s;
    }
  }
}
