/** JSON text: escaping and decoding the inside of a string, and scanning for unclosed braces. */
module JsonText {
  import opened Basics

  // ----- escaping (section 7 of RFC 8259)

  const HEX_DIGITS := "0123456789abcdef"

  function EscapeChar(c: char): (e: string)
    ensures e != []
  {
    if c == '\"' || c == '\\' then ['\\', c]
    else if ' ' <= c then [c]
    else ControlEscape(c)
  }

  function ControlEscape(c: char): (e: string)
    requires c < ' '
    ensures e != []
  {
    match c
    case '\U{8}' => "\\b"
    case '\U{C}' => "\\f"
    case '\n' => "\\n"
    case '\r' => "\\r"
    case '\t' => "\\t"
    case _ => ['\\', 'u', '0', '0', HEX_DIGITS[c as int / 16], HEX_DIGITS[c as int % 16]]
  }

  /** The inside of the JSON string for `s`. */
  function Escape(s: string): string {
    if s == [] then [] else EscapeChar(s[0]) + Escape(s[1..])
  }

  /** The escapes of section 7: quote, backslash and control characters are escaped, everything else stands for itself. */
  lemma EscapeTable()
    ensures forall c :: EscapeChar(c) == [c] <==> ' ' <= c && c != '\"' && c != '\\'
    ensures EscapeChar('\"') == "\\\"" && EscapeChar('\\') == "\\\\"
    ensures EscapeChar('\n') == "\\n" && EscapeChar('\r') == "\\r" && EscapeChar('\t') == "\\t"
    ensures EscapeChar('\U{8}') == "\\b" && EscapeChar('\U{C}') == "\\f"
    ensures EscapeChar('\U{0}') == "\\u0000" && EscapeChar('\U{B}') == "\\u000b" && EscapeChar('\U{1F}') == "\\u001f"
  {
  }

  lemma Associative(a: string, b: string, c: string)
    ensures (a + b) + c == a + (b + c)
  {
  }

  /** Escaping a beginning of a text gives a beginning of the escaped text. */
  lemma EscapeMonotone(a: string, b: string)
    requires a <= b
    ensures Escape(a) <= Escape(b)
  {
  }

  // ----- decoding

  function HexValue(c: char): Option<nat> {
    if '0' <= c <= '9' then Some(c as int - '0' as int)
    else if 'a' <= c <= 'f' then Some(c as int - 'a' as int + 10)
    else if 'A' <= c <= 'F' then Some(c as int - 'A' as int + 10)
    else None
  }

  /** The code point written as four hexadecimal digits, unless it is a surrogate. */
  function Hex4(s: string): (r: Option<char>) {
    if |s| < 4 || HexValue(s[0]).None? || HexValue(s[1]).None? || HexValue(s[2]).None? || HexValue(s[3]).None? then None
    else
      var code := HexValue(s[0]).value * 4096 + HexValue(s[1]).value * 256 + HexValue(s[2]).value * 16 + HexValue(s[3]).value;
      if code < 0xD800 || 0xE000 <= code < 0x10000 then Some(code as char) else None
  }

  function Simple(e: char): Option<char> {
    match e
    case '\"' => Some('\"')
    case '\\' => Some('\\')
    case '/' => Some('/')
    case 'b' => Some('\U{8}')
    case 'f' => Some('\U{C}')
    case 'n' => Some('\n')
    case 'r' => Some('\r')
    case 't' => Some('\t')
    case _ => None
  }

  function Prepend(c: char, rest: Option<string>): Option<string> {
    if rest.Some? then Some([c] + rest.value) else None
  }

  /** The text of a JSON string with inside `s`, or None if `s` is not the inside of a JSON string. */
  function Unescape(s: string): (r: Option<string>) {
    if s == [] then Some([])
    else if s[0] == '\\' then
      if |s| >= 2 && s[1] == 'u' then
        var c := Hex4(s[2..]);
        if c.Some? then Prepend(c.value, Unescape(s[6..])) else None
      else if |s| >= 2 && Simple(s[1]).Some? then Prepend(Simple(s[1]).value, Unescape(s[2..]))
      else None
    else if s[0] == '\"' || s[0] < ' ' then None
    else Prepend(s[0], Unescape(s[1..]))
  }

  lemma HexDigitValue(d: nat)
    requires d < 16
    ensures HexValue(HEX_DIGITS[d]) == Some(d)
  {
  }

  /** A character escapes to itself, to a simple escape, or to four hexadecimal digits. */
  lemma EscapeShape(c: char)
    ensures var e := EscapeChar(c);
            || (e == [c] && c != '\"' && c != '\\' && ' ' <= c)
            || (|e| == 2 && e[0] == '\\' && e[1] != 'u' && Simple(e[1]) == Some(c))
            || (|e| == 6 && e[0] == '\\' && e[1] == 'u' && Hex4(e[2..]) == Some(c)
                && forall k :: 2 <= k < 6 ==> HexValue(e[k]).Some?)
  {
    var e := EscapeChar(c);
    if |e| == 6 {
      HexDigitValue(0);
      HexDigitValue(c as int / 16);
      HexDigitValue(c as int % 16);
    }
  }

  lemma UnescapeHex(c: char, e: string, s: string)
    requires |e| == 6 && e[0] == '\\' && e[1] == 'u' && Hex4(e[2..]) == Some(c)
    ensures Unescape(e + s) == Prepend(c, Unescape(s))
  {
  }

  lemma UnescapeEscapedChar(c: char, s: string, t: string)
    requires t == EscapeChar(c) + s
    ensures Unescape(t) == Prepend(c, Unescape(s))
  {
    hide EscapeChar, Simple, Hex4;
    EscapeShape(c);
    var e := EscapeChar(c);
    if |e| == 1 {
      assert t[1..] == s;
    } else if |e| == 2 {
      assert t[2..] == s;
    } else {
      UnescapeHex(c, e, s);
    }
  }

  /** Decoding undoes escaping. */
  lemma {:induction false} UnescapeEscape(s: string)
    ensures Unescape(Escape(s)) == Some(s)
  {
    if s != [] {
      UnescapeEscape(s[1..]);
      UnescapeEscapedChar(s[0], Escape(s[1..]), Escape(s));
      assert s == [s[0]] + s[1..];
    }
  }

  // ----- reading a string with its quotes

  /** The position of the quote that ends a string. */
  function StringEnd(s: string): (end: Option<nat>)
    ensures end.Some? ==> end.value < |s|
  {
    if s == [] then None
    else if s[0] == '\"' then Some(0)
    else
      var n := if s[0] == '\\' && |s| > 1 then 2 else 1;
      var rest := StringEnd(s[n..]);
      if rest.Some? then Some(n + rest.value) else None
  }

  datatype Parsed = Parsed(text: string, rest: string)

  function ParseString(s: string): (r: Option<Parsed>)
    ensures r.Some? ==> |r.value.rest| < |s|
  {
    if s == [] || s[0] != '\"' then None
    else
      var end := StringEnd(s[1..]);
      if end.None? then None
      else
        var text := Unescape(s[1..][..end.value]);
        if text.Some? then Some(Parsed(text.value, s[1..][end.value + 1..])) else None
  }

  lemma {:induction false} StringEndEscaped(text: string, rest: string, all: string)
    requires all == Escape(text) + ("\"" + rest)
    ensures StringEnd(all) == Some(|Escape(text)|)
    decreases text
  {
    hide EscapeChar;
    if text == [] {
      assert all == "\"" + rest;
    } else {
      var e := EscapeChar(text[0]);
      assert all == e + (Escape(text[1..]) + ("\"" + rest));
      StringEndEscaped(text[1..], rest, Escape(text[1..]) + ("\"" + rest));
      SkipEscapedChar(text[0], Escape(text[1..]) + ("\"" + rest), all);
    }
  }

  lemma SkipEscapedChar(c: char, rest: string, all: string)
    requires all == EscapeChar(c) + rest && StringEnd(rest).Some?
    ensures StringEnd(all) == Some(|EscapeChar(c)| + StringEnd(rest).value)
  {
    hide EscapeChar, Hex4, Simple;
    EscapeShape(c);
    var e := EscapeChar(c);
    if |e| == 1 {
      assert all[1..] == rest;
    } else if |e| == 2 {
      assert all[2..] == rest;
    } else {
      SkipUnicode(e, rest, all);
    }
  }

  /** A backslash, the u after it and four digits. */
  lemma SkipUnicode(e: string, rest: string, all: string)
    requires |e| == 6 && all == e + rest && e[0] == '\\' && StringEnd(rest).Some?
    requires forall k :: 2 <= k < 6 ==> e[k] != '\"' && e[k] != '\\'
    ensures StringEnd(all) == Some(6 + StringEnd(rest).value)
  {
    assert all[6..] == rest && all[2..] == e[2..] + rest;
    SkipFour(e[2], e[3], e[4], e[5], rest, all[2..]);
  }

  lemma SkipFour(a: char, b: char, c: char, d: char, rest: string, all: string)
    requires all == [a, b, c, d] + rest && StringEnd(rest).Some?
    requires forall x :: x in [a, b, c, d] ==> x != '\"' && x != '\\'
    ensures StringEnd(all) == Some(4 + StringEnd(rest).value)
  {
    hide StringEnd;
    assert a in [a, b, c, d] && b in [a, b, c, d] && c in [a, b, c, d] && d in [a, b, c, d];
    assert all[3..][1..] == rest && all[2..][1..] == all[3..] && all[1..][1..] == all[2..];
    SkipPlain(all[3..], rest);
    SkipPlain(all[2..], all[3..]);
    SkipPlain(all[1..], all[2..]);
    SkipPlain(all, all[1..]);
  }

  lemma SkipPlain(all: string, rest: string)
    requires all != [] && all[0] != '\"' && all[0] != '\\' && all[1..] == rest && StringEnd(rest).Some?
    ensures StringEnd(all) == Some(1 + StringEnd(rest).value)
  {
  }

  lemma DropQuote(escaped: string, rest: string, all: string)
    requires all == "\"" + escaped + ("\"" + rest)
    ensures all != [] && all[0] == '\"' && all[1..] == escaped + ("\"" + rest)
    ensures all[1..][..|escaped|] == escaped && all[1..][|escaped| + 1..] == rest
  {
  }

  lemma ParseEscaped(text: string, rest: string, all: string)
    requires all == "\"" + Escape(text) + ("\"" + rest)
    ensures ParseString(all) == Some(Parsed(text, rest))
  {
    hide StringEnd, Escape, Unescape;
    var inner := all[1..];
    DropQuote(Escape(text), rest, all);
    StringEndEscaped(text, rest, inner);
    UnescapeEscape(text);
  }

  // ----- unclosed braces

  datatype Scan = Scan(depth: int, inString: bool, escaped: bool)

  const SCAN_START := Scan(0, false, false)

  function ScanChar(st: Scan, c: char): Scan {
    if st.escaped then st.(escaped := false)
    else if c == '\\' && st.inString then st.(escaped := true)
    else if c == '\"' then st.(inString := !st.inString)
    else if st.inString then st
    else if c == '{' then st.(depth := st.depth + 1)
    else if c == '}' then st.(depth := st.depth - 1)
    else st
  }

  function ScanText(st: Scan, s: string): Scan
    decreases s
  {
    if s == [] then st else ScanText(ScanChar(st, s[0]), s[1..])
  }

  /** Unclosed braces of a JSON-like text. */
  function BraceDepth(s: string): int {
    ScanText(SCAN_START, s).depth
  }

  lemma {:induction false} ScanConcat(st: Scan, a: string, b: string)
    ensures ScanText(st, a + b) == ScanText(ScanText(st, a), b)
    decreases a
  {
    if a == [] {
      assert a + b == b;
    } else {
      ScanConcat(ScanChar(st, a[0]), a[1..], b);
      assert (a + b)[1..] == a[1..] + b;
    }
  }

  method JsonBraceDepth(s: string) returns (depth: int)
    ensures depth == BraceDepth(s)
  {
    depth := 0;
    var inString, escaped := false, false;
    var i := 0;
    while i < |s|
      invariant 0 <= i <= |s|
      invariant ScanText(SCAN_START, s) == ScanText(Scan(depth, inString, escaped), s[i..])
    {
      var c := s[i];
      assert s[i..][1..] == s[i + 1..];
      i := i + 1;
      if escaped {
        escaped := false;
      } else if c == '\\' && inString {
        escaped := true;
      } else if c == '\"' {
        inString := !inString;
      } else if !inString {
        if c == '{' {
          depth := depth + 1;
        } else if c == '}' {
          depth := depth - 1;
        }
      }
    }
  }

  /** An escaped text leaves a scan inside a string where it was. */
  lemma {:induction false} ScanEscaped(st: Scan, s: string)
    requires st.inString && !st.escaped
    ensures ScanText(st, Escape(s)) == st
  {
    if s != [] {
      ScanEscapedChar(st, s[0]);
      ScanConcat(st, EscapeChar(s[0]), Escape(s[1..]));
      ScanEscaped(st, s[1..]);
    }
  }

  lemma ScanTwo(st: Scan, a: char, b: char)
    ensures ScanText(st, [a, b]) == ScanChar(ScanChar(st, a), b)
  {
    assert [a, b][1..] == [b] && [b][1..] == [];
    assert ScanText(ScanChar(st, a), [b]) == ScanText(ScanChar(ScanChar(st, a), b), []);
  }

  lemma ScanEscapedChar(st: Scan, c: char)
    requires st.inString && !st.escaped
    ensures ScanText(st, EscapeChar(c)) == st
  {
    var e := EscapeChar(c);
    if |e| == 1 {
      assert ScanText(st, e) == ScanText(ScanChar(st, e[0]), []);
    } else if |e| == 2 {
      ScanTwo(st, e[0], e[1]);
      assert e == [e[0], e[1]];
    } else {
      ScanPlain(st, e[2..]);
      ScanConcat(st, e[..2], e[2..]);
      ScanTwo(st, e[0], e[1]);
      assert e[..2] + e[2..] == e && e[..2] == [e[0], e[1]];
      HexDigitPlain(c as int / 16);
      HexDigitPlain(c as int % 16);
    }
  }

  lemma HexDigitPlain(d: nat)
    requires d < 16
    ensures Plain(HEX_DIGITS[d])
  {
  }

  /** Neither a quote, nor a backslash, nor a brace. */
  predicate Plain(c: char) {
    c != '\"' && c != '\'' && c != '\\' && c != '{' && c != '}'
  }

  lemma {:induction false} ScanPlain(st: Scan, s: string)
    requires !st.escaped && forall c :: c in s ==> Plain(c)
    ensures ScanText(st, s) == st
  {
    if s != [] {
      assert s[0] in s && ScanChar(st, s[0]) == st;
      ScanPlain(st, s[1..]);
    }
  }

  function Braces(n: nat): (s: string)
    ensures |s| == n
  {
    seq(n, _ => '}')
  }

  lemma {:induction false} ScanBraces(st: Scan, n: nat)
    requires !st.escaped
    ensures ScanText(st, Braces(n)) == if st.inString then st else st.(depth := st.depth - n)
    decreases n
  {
    if n > 0 {
      assert Braces(n)[1..] == Braces(n - 1);
      ScanBraces(ScanChar(st, '}'), n - 1);
    }
  }

  /** Appending one brace per unclosed one closes the text exactly if the text does not end inside a string. */
  lemma ClosingIff(s: string)
    requires BraceDepth(s) > 0 && !ScanText(SCAN_START, s).escaped
    ensures BraceDepth(s + Braces(BraceDepth(s))) == 0 <==> !ScanText(SCAN_START, s).inString
  {
    ScanConcat(SCAN_START, s, Braces(BraceDepth(s)));
    ScanBraces(ScanText(SCAN_START, s), BraceDepth(s));
  }
}
