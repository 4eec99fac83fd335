/** Converting Python values keeps what they mean. */
module QuoteMeaning {
  import opened Basics
  import opened JsonText
  import opened QuoteNormalizer

  function Delimiter(double: bool): char {
    if double then '\"' else '\''
  }

  function Inside(double: bool): Quote {
    if double then Double else Single
  }

  /** The text of a Python string with inside `s`, using only escapes that JSON shares, and \'. */
  function PyUnescape(s: string, double: bool): Option<string> {
    if s == [] then Some([])
    else if s[0] == '\\' then
      if |s| >= 2 && s[1] == 'u' then
        var c := Hex4(s[2..]);
        if c.Some? then Prepend(c.value, PyUnescape(s[6..], double)) else None
      else if |s| >= 2 && s[1] == '\'' then Prepend('\'', PyUnescape(s[2..], double))
      else if |s| >= 2 && s[1] != '/' && Simple(s[1]).Some? then Prepend(Simple(s[1]).value, PyUnescape(s[2..], double))
      else None
    else if s[0] == Delimiter(double) || s[0] < ' ' then None
    else Prepend(s[0], PyUnescape(s[1..], double))
  }

  /** The inside of the JSON string that the inside of a Python string becomes; double-quoted strings stay as they are. */
  function JsonInside(s: string, double: bool): string {
    if s == [] then []
    else if s[0] == '\\' && |s| >= 2 then (if s[1] == '\'' && !double then "'" else s[..2]) + JsonInside(s[2..], double)
    else if s[0] == '\"' && !double then "\\\"" + JsonInside(s[1..], double)
    else [s[0]] + JsonInside(s[1..], double)
  }

  lemma {:induction false} DoubleStays(s: string)
    ensures JsonInside(s, true) == s
    decreases |s|
  {
    if s == [] {
    } else if s[0] == '\\' && |s| >= 2 {
      DoubleStays(s[2..]);
      assert s == s[..2] + s[2..];
    } else {
      DoubleStays(s[1..]);
      assert s == [s[0]] + s[1..];
    }
  }

  // ----- single-quoted strings keep their meaning

  /** Both insides mean the same text. */
  lemma {:induction false} InsideKeepsMeaning(s: string)
    requires PyUnescape(s, false).Some?
    ensures Unescape(JsonInside(s, false)) == PyUnescape(s, false)
  {
    if s == [] {
    } else if s[0] == '\\' {
      var rest := JsonInside(s[2..], false);
      if s[1] == 'u' {
        HexInside(s);
        InsideKeepsMeaning(s[6..]);
        HexEscape(s[..6], JsonInside(s[6..], false), JsonInside(s, false));
        assert s[..6][2..][..4] == s[2..][..4];
      } else {
        InsideKeepsMeaning(s[2..]);
        if s[1] == '\'' {
          assert JsonInside(s, false)[1..] == rest;
        } else {
          assert JsonInside(s, false)[0] == '\\' && JsonInside(s, false)[1] == s[1] && JsonInside(s, false)[2..] == rest;
        }
      }
    } else {
      InsideKeepsMeaning(s[1..]);
      var rest := JsonInside(s[1..], false);
      if s[0] == '\"' {
        assert JsonInside(s, false)[0] == '\\' && JsonInside(s, false)[1] == '\"' && JsonInside(s, false)[2..] == rest;
      } else {
        assert JsonInside(s, false)[0] == s[0] && JsonInside(s, false)[1..] == rest;
      }
    }
  }

  /** Four hexadecimal digits stay as they are. */
  lemma HexInside(s: string)
    requires |s| >= 6 && s[0] == '\\' && s[1] == 'u' && Hex4(s[2..]).Some?
    ensures JsonInside(s, false) == s[..6] + JsonInside(s[6..], false)
  {
    HexDigitStays(s[2..]);
    HexDigitStays(s[3..]);
    HexDigitStays(s[4..]);
    HexDigitStays(s[5..]);
    assert JsonInside(s, false) == s[..2] + JsonInside(s[2..], false);
    hide JsonInside;
    assert s[2..][1..] == s[3..] && s[3..][1..] == s[4..] && s[4..][1..] == s[5..] && s[5..][1..] == s[6..];
    JoinHex(s, JsonInside(s[6..], false));
  }

  lemma JoinHex(s: string, rest: string)
    requires |s| >= 6
    ensures s[..2] + ([s[2]] + ([s[3]] + ([s[4]] + ([s[5]] + rest)))) == s[..6] + rest
  {
  }

  lemma HexDigitStays(s: string)
    requires s != [] && HexValue(s[0]).Some?
    ensures JsonInside(s, false) == [s[0]] + JsonInside(s[1..], false)
  {
  }

  lemma HexEscape(escape: string, rest: string, all: string)
    requires |escape| == 6 && escape[0] == '\\' && escape[1] == 'u' && Hex4(escape[2..]).Some? && all == escape + rest
    ensures Unescape(all) == Prepend(Hex4(escape[2..]).value, Unescape(rest))
  {
  }

  // ----- double-quoted strings keep theirs exactly if no single quote is escaped

  predicate EscapesSingle(s: string) {
    if s == [] then false
    else if s[0] == '\\' && |s| >= 2 then s[1] == '\'' || EscapesSingle(s[2..])
    else EscapesSingle(s[1..])
  }

  lemma {:induction false} DoubleQuotedIff(s: string)
    requires PyUnescape(s, true).Some?
    ensures Unescape(s) == if EscapesSingle(s) then None else PyUnescape(s, true)
    decreases |s|
  {
    if s == [] {
    } else if s[0] == '\\' {
      if s[1] == 'u' {
        HexEscapesNothing(s);
        DoubleQuotedIff(s[6..]);
      } else {
        DoubleQuotedIff(s[2..]);
      }
    } else {
      DoubleQuotedIff(s[1..]);
    }
  }

  lemma HexEscapesNothing(s: string)
    requires |s| >= 6 && s[0] == '\\' && s[1] == 'u' && Hex4(s[2..]).Some?
    ensures EscapesSingle(s) == EscapesSingle(s[6..])
  {
    assert s[2..][1..] == s[3..] && s[3..][1..] == s[4..] && s[4..][1..] == s[5..] && s[5..][1..] == s[6..];
    assert EscapesSingle(s[5..]) == EscapesSingle(s[6..]);
    assert EscapesSingle(s[4..]) == EscapesSingle(s[5..]);
    assert EscapesSingle(s[3..]) == EscapesSingle(s[4..]);
    assert EscapesSingle(s[2..]) == EscapesSingle(s[3..]);
  }

  // ----- the conversion of strings

  ghost predicate At(s: string, i: nat, x: string) {
    i + |x| <= |s| && s[i..i + |x|] == x
  }

  /** The rest of a Python string converts to the rest of a JSON string. */
  lemma {:induction false} QuotedRest(s: string, i: nat, inside: string, double: bool, end: nat)
    requires At(s, i, inside + [Delimiter(double)]) && PyUnescape(inside, double).Some? && end == i + |inside| + 1
    ensures Convert(s, i, Inside(double)) == JsonInside(inside, double) + "\"" + Convert(s, end, Outside)
    decreases inside
  {
    hide Convert, UnitAt, Inside, PyUnescape;
    if inside == [] {
      assert inside + [Delimiter(double)] == [Delimiter(double)];
      ClosingQuote(s, i, double);
      assert [] + "\"" + Convert(s, end, Outside) == "\"" + Convert(s, end, Outside);
    } else {
      var n := InsideUnit(s, i, inside, double);
      QuotedRest(s, i + n, inside[n..], double, end);
      ConvertSplits(s, i, Inside(double));
      Regroup(UnitAt(s, i, Inside(double)).text, JsonInside(inside[n..], double), Convert(s, end, Outside),
              Convert(s, i + n, Inside(double)), JsonInside(inside, double));
    }
  }

  lemma ClosingQuote(s: string, i: nat, double: bool)
    requires At(s, i, [Delimiter(double)])
    ensures Convert(s, i, Inside(double)) == "\"" + Convert(s, i + 1, Outside)
  {
    assert s[i..i + 1][0] == s[i];
    ConvertSplits(s, i, Inside(double));
  }

  lemma OpeningQuote(s: string, i: nat, double: bool)
    requires At(s, i, [Delimiter(double)])
    ensures Convert(s, i, Outside) == "\"" + Convert(s, i + 1, Inside(double))
  {
    assert s[i..i + 1][0] == s[i];
    ConvertSplits(s, i, Outside);
  }

  lemma Regroup(text: string, b: string, tail: string, rest: string, all: string)
    requires rest == b + "\"" + tail && all == text + b
    ensures text + rest == all + "\"" + tail
  {
  }

  /** The next unit of a string. */
  lemma InsideUnit(s: string, i: nat, inside: string, double: bool) returns (n: nat)
    requires At(s, i, inside + [Delimiter(double)]) && PyUnescape(inside, double).Some? && inside != []
    ensures 1 <= n <= |inside| && At(s, i + n, inside[n..] + [Delimiter(double)]) && PyUnescape(inside[n..], double).Some?
    ensures UnitAt(s, i, Inside(double)).len == n && UnitAt(s, i, Inside(double)).next == Inside(double)
    ensures JsonInside(inside, double) == UnitAt(s, i, Inside(double)).text + JsonInside(inside[n..], double)
  {
    hide PyUnescape, JsonInside, UnitAt;
    n := UnitLength(inside, double);
    var all := inside + [Delimiter(double)];
    assert s[i] == s[i..i + |all|][0] == all[0] == inside[0];
    if n == 2 {
      assert s[i + 1] == s[i..i + |all|][1] == all[1] == inside[1];
    }
    UnitOfInside(s, i, inside[0], if n == 2 then inside[1] else inside[0], n, double);
    assert s[i + n..i + |all|] == s[i..i + |all|][n..] == inside[n..] + [Delimiter(double)];
  }

  /** The text for one unit of the inside of a string that begins with `c`, and `d` after a backslash. */
  function UnitText(c: char, d: char, double: bool): string {
    if c == '\\' then (if d == '\'' && !double then "'" else [c, d])
    else if c == '\"' && !double then "\\\"" else [c]
  }

  lemma UnitOfInside(s: string, i: nat, c: char, d: char, n: nat, double: bool)
    requires i + n < |s| && s[i] == c && n == (if c == '\\' then 2 else 1) && (n == 2 ==> s[i + 1] == d)
    requires c != Delimiter(double)
    ensures UnitAt(s, i, Inside(double)) == Unit(UnitText(c, d, double), n, Inside(double))
  {
  }

  /** A unit is an escape or one character. */
  lemma UnitLength(inside: string, double: bool) returns (n: nat)
    requires PyUnescape(inside, double).Some? && inside != []
    ensures 1 <= n <= |inside| && n == (if inside[0] == '\\' then 2 else 1) && inside[0] != Delimiter(double)
    ensures PyUnescape(inside[n..], double).Some?
    ensures JsonInside(inside, double)
            == UnitText(inside[0], if n == 2 then inside[1] else inside[0], double) + JsonInside(inside[n..], double)
  {
    n := if inside[0] == '\\' then 2 else 1;
    if n == 2 {
      assert inside[..2] == [inside[0], inside[1]];
      if inside[1] == 'u' {
        SkippedInside(inside, double);
      }
    }
  }

  /** What follows \u is still the inside of a string. */
  lemma SkippedInside(inside: string, double: bool)
    requires |inside| >= 6 && Hex4(inside[2..]).Some? && PyUnescape(inside[6..], double).Some?
    ensures PyUnescape(inside[2..], double).Some?
  {
    assert inside[5..][1..] == inside[6..] && PyUnescape(inside[5..], double).Some?;
    assert inside[4..][1..] == inside[5..] && PyUnescape(inside[4..], double).Some?;
    assert inside[3..][1..] == inside[4..] && PyUnescape(inside[3..], double).Some?;
    assert inside[2..][1..] == inside[3..];
  }

  /** A Python string in either kind of quotes converts to one JSON string. */
  lemma QuotedString(inside: string, double: bool)
    requires PyUnescape(inside, double).Some?
    ensures Normalize([Delimiter(double)] + inside + [Delimiter(double)]) == "\"" + JsonInside(inside, double) + "\""
  {
    hide Convert, PyUnescape, JsonInside;
    var s := [Delimiter(double)] + inside + [Delimiter(double)];
    assert s[0..1] == [Delimiter(double)];
    OpeningQuote(s, 0, double);
    assert s[1..1 + |inside + [Delimiter(double)]|] == inside + [Delimiter(double)];
    QuotedRest(s, 1, inside, double, |s|);
    ConvertNothing(s);
    assert "\"" + (JsonInside(inside, double) + "\"" + []) == "\"" + JsonInside(inside, double) + "\"";
  }

  /** Whether the JSON string that a Python string becomes means the same text. */
  predicate KeepsText(inside: string, double: bool) {
    PyUnescape(inside, double).Some? && !(double && EscapesSingle(inside))
  }

  /**
    A Python string keeps its text exactly if it is not a double-quoted one with an escaped single quote, which JSON
    does not have; such a string becomes no JSON string at all.
   */
  lemma StringKeepsTextIff(inside: string, double: bool)
    requires PyUnescape(inside, double).Some?
    ensures Unescape(JsonInside(inside, double)) == PyUnescape(inside, double) <==> KeepsText(inside, double)
    ensures !KeepsText(inside, double) ==> Unescape(JsonInside(inside, double)) == None
  {
    if double {
      DoubleStays(inside);
      DoubleQuotedIff(inside);
    } else {
      InsideKeepsMeaning(inside);
    }
  }
}
