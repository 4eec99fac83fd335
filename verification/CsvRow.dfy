/** Rows of comma-separated fields; fields may be quoted (section 2 of RFC 4180). */
module CsvRow {

  // ----- the parser

  /** What the parser makes of the rest of a row, with the field collected so far and the state of quoting. */
  function ParseFrom(s: string, field: string, inQuotes: bool): (fields: seq<string>)
    ensures fields != []
    decreases |s|
  {
    if s == "" then [field]
    else if s[0] == '"' then
      if !inQuotes then
        if field != "" then ParseFrom(s[1..], field + "\"", false) else ParseFrom(s[1..], field, true)
      else if |s| > 1 && s[1] == '"' then ParseFrom(s[2..], field + "\"", true)
      else ParseFrom(s[1..], field, false)
    else if s[0] == ',' && !inQuotes then [field] + ParseFrom(s[1..], "", false)
    else ParseFrom(s[1..], field + [s[0]], inQuotes)
  }

  method ParseCsvRow(input: string) returns (fields: seq<string>)
    ensures fields == ParseFrom(input, "", false)
  {
    fields := [];
    var field, inQuotes, i := "", false, 0;
    assert input[0..] == input;
    while i < |input|
      invariant 0 <= i <= |input|
      invariant ParseFrom(input, "", false) == fields + ParseFrom(input[i..], field, inQuotes)
    {
      ghost var rest := input[i..];
      assert rest[1..] == input[i + 1..];
      assert |rest| > 1 ==> rest[2..] == input[i + 2..];
      var ch := input[i];
      if ch == '"' {
        if !inQuotes {
          if |field| > 0 {
            field := field + "\"";
          } else {
            inQuotes := true;
          }
        } else {
          if i + 1 < |input| && input[i + 1] == '"' {
            field := field + "\"";
            i := i + 1;
          } else {
            inQuotes := false;
          }
        }
      } else if ch == ',' {
        if inQuotes {
          field := field + ",";
        } else {
          fields := fields + [field];
          field := "";
        }
      } else {
        field := field + [ch];
      }
      i := i + 1;
    }
    fields := fields + [field];
  }

  // ----- what a row is

  /**
   * A cell is bare, with quotes that stand for themselves after its beginning, or quoted, possibly with more text after
   * the closing quote; the last quoted cell may lack its closing quote.
   */
  datatype Cell = Bare(text: string) | Quoted(inner: string, tail: string) | Unclosed(inner: string)

  predicate IsBare(text: string) {
    ',' !in text && (text == "" || text[0] != '"')
  }

  predicate Valid(cell: Cell) {
    match cell
    case Bare(text) => IsBare(text)
    case Quoted(_, tail) => IsBare(tail)
    case Unclosed(_) => true
  }

  predicate ValidRow(cells: seq<Cell>) {
    cells != [] && forall i :: 0 <= i < |cells| ==> Valid(cells[i]) && (cells[i].Unclosed? ==> i == |cells| - 1)
  }

  /** Quotes inside a quoted cell are doubled. */
  function Doubled(inner: string): string {
    if inner == "" then ""
    else (if inner[0] == '"' then "\"\"" else [inner[0]]) + Doubled(inner[1..])
  }

  function RenderCell(cell: Cell): string {
    match cell
    case Bare(text) => text
    case Quoted(inner, tail) => "\"" + Doubled(inner) + "\"" + tail
    case Unclosed(inner) => "\"" + Doubled(inner)
  }

  function Render(cells: seq<Cell>): string
    requires cells != []
  {
    if |cells| == 1 then RenderCell(cells[0]) else RenderCell(cells[0]) + "," + Render(cells[1..])
  }

  function CellValue(cell: Cell): string {
    match cell
    case Bare(text) => text
    case Quoted(inner, tail) => inner + tail
    case Unclosed(inner) => inner
  }

  function Values(cells: seq<Cell>): (values: seq<string>)
    ensures |values| == |cells|
  {
    if cells == [] then [] else [CellValue(cells[0])] + Values(cells[1..])
  }

  // ----- rows are parsed to the values of their cells

  lemma {:induction false} ParsePlain(t: string, rest: string, field: string)
    requires ',' !in t && (field != "" || t == "" || t[0] != '"')
    ensures ParseFrom(t + rest, field, false) == ParseFrom(rest, field + t, false)
    decreases |t|
  {
    if t == "" {
      assert t + rest == rest && field + t == field;
    } else {
      assert (t + rest)[1..] == t[1..] + rest;
      assert field + t == (field + [t[0]]) + t[1..];
      ParsePlain(t[1..], rest, field + [t[0]]);
    }
  }

  lemma PairInside(s: string, field: string)
    ensures ParseFrom("\"\"" + s, field, true) == ParseFrom(s, field + "\"", true)
  {
  }

  lemma CharInside(c: char, s: string, field: string)
    requires c != '"'
    ensures ParseFrom([c] + s, field, true) == ParseFrom(s, field + [c], true)
  {
  }

  lemma {:induction false} ParseInside(inner: string, rest: string, field: string)
    ensures ParseFrom(Doubled(inner) + rest, field, true) == ParseFrom(rest, field + inner, true)
    decreases |inner|
  {
    hide ParseFrom;
    if inner == "" {
      assert Doubled(inner) + rest == rest && field + inner == field;
    } else {
      var more := Doubled(inner[1..]) + rest;
      assert field + inner == (field + [inner[0]]) + inner[1..];
      ParseInside(inner[1..], rest, field + [inner[0]]);
      if inner[0] == '"' {
        PairInside(more, field);
        assert Doubled(inner) + rest == "\"\"" + more;
      } else {
        CharInside(inner[0], more, field);
        assert Doubled(inner) + rest == [inner[0]] + more;
      }
    }
  }

  lemma ParseBareCell(text: string, rest: string)
    requires IsBare(text)
    ensures ParseFrom(text + rest, "", false) == ParseFrom(rest, text, false)
  {
    hide ParseFrom;
    ParsePlain(text, rest, "");
    assert "" + text == text;
  }

  /** A quoted beginning is read up to what follows its inside. */
  lemma ParseQuoted(inner: string, after: string)
    ensures ParseFrom("\"" + Doubled(inner) + after, "", false) == ParseFrom(after, inner, true)
  {
    hide ParseFrom, Doubled;
    assert "\"" + Doubled(inner) + after == "\"" + (Doubled(inner) + after);
    OpenQuote(Doubled(inner) + after);
    ParseInside(inner, after, "");
    assert "" + inner == inner;
  }

  lemma ParseQuotedCell(inner: string, tail: string, rest: string)
    requires IsBare(tail) && (rest == "" || rest[0] == ',')
    ensures ParseFrom("\"" + Doubled(inner) + "\"" + tail + rest, "", false) == ParseFrom(rest, inner + tail, false)
  {
    hide ParseFrom, Doubled;
    var after := "\"" + (tail + rest);
    ParseQuoted(inner, after);
    assert "\"" + Doubled(inner) + "\"" + tail + rest == "\"" + Doubled(inner) + after;
    assert tail == "" ==> tail + rest == rest;
    CloseQuote(tail + rest, inner);
    ParsePlain(tail, rest, inner);
  }

  /** A cell is read up to the comma after it. */
  lemma ParseCell(cell: Cell, rest: string)
    requires Valid(cell) && (rest == "" || rest[0] == ',') && (cell.Unclosed? ==> rest == "")
    ensures ParseFrom(RenderCell(cell) + rest, "", false) == ParseFrom(rest, CellValue(cell), cell.Unclosed?)
  {
    hide ParseFrom, Doubled;
    match cell {
      case Bare(text) => ParseBareCell(text, rest);
      case Quoted(inner, tail) => ParseQuotedCell(inner, tail, rest);
      case Unclosed(inner) => ParseQuoted(inner, "");
    }
  }

  lemma OpenQuote(s: string)
    ensures ParseFrom("\"" + s, "", false) == ParseFrom(s, "", true)
  {
  }

  lemma CloseQuote(s: string, field: string)
    requires s == "" || s[0] != '"'
    ensures ParseFrom("\"" + s, field, true) == ParseFrom(s, field, false)
  {
  }

  lemma ParseComma(s: string, field: string)
    ensures ParseFrom("," + s, field, false) == [field] + ParseFrom(s, "", false)
  {
  }

  lemma ParseEnd(field: string, inQuotes: bool)
    ensures ParseFrom("", field, inQuotes) == [field]
  {
  }

  /** Parsing a row gives the values of its cells. */
  lemma {:induction false} ParseRow(cells: seq<Cell>)
    requires ValidRow(cells)
    ensures ParseFrom(Render(cells), "", false) == Values(cells)
    decreases |cells|
  {
    hide ParseFrom, RenderCell, CellValue, Valid;
    var cell := cells[0];
    if |cells| == 1 {
      ParseCell(cell, "");
      assert RenderCell(cell) + "" == RenderCell(cell);
      ParseEnd(CellValue(cell), cell.Unclosed?);
      assert Values(cells[1..]) == [];
    } else {
      var rest := "," + Render(cells[1..]);
      assert Render(cells) == RenderCell(cell) + rest;
      assert Valid(cell) && !cell.Unclosed?;
      ParseCell(cell, rest);
      ParseComma(Render(cells[1..]), CellValue(cell));
      assert forall i :: 0 <= i < |cells| - 1 ==> cells[1..][i] == cells[i + 1];
      ParseRow(cells[1..]);
    }
  }

  // ----- and every input is a row

  lemma {:induction false} SplitPlain(s: string) returns (text: string, rest: string)
    ensures s == text + rest && ',' !in text && (rest == "" || rest[0] == ',')
    decreases |s|
  {
    if s == "" || s[0] == ',' {
      return "", s;
    }
    text, rest := SplitPlain(s[1..]);
    assert s == [s[0]] + s[1..];
    text := [s[0]] + text;
  }

  lemma {:induction false} SplitInside(s: string) returns (inner: string, rest: string)
    ensures s == Doubled(inner) + rest
    ensures rest == "" || (rest[0] == '"' && (|rest| == 1 || rest[1] != '"'))
    decreases |s|
  {
    if s == "" || (s[0] == '"' && (|s| == 1 || s[1] != '"')) {
      return "", s;
    }
    var skip := if s[0] == '"' then 2 else 1;
    var more;
    more, rest := SplitInside(s[skip..]);
    inner := [s[0]] + more;
    assert inner[1..] == more;
    assert s == s[..skip] + s[skip..];
    assert s[..skip] + Doubled(more) == Doubled(inner);
  }

  lemma FirstCell(s: string) returns (cell: Cell, rest: string)
    ensures Valid(cell) && s == RenderCell(cell) + rest && (rest == "" || rest[0] == ',') && (cell.Unclosed? ==> rest == "")
  {
    hide Doubled;
    if s == "" || s[0] != '"' {
      var text;
      text, rest := SplitPlain(s);
      cell := Bare(text);
    } else {
      var inner, after := SplitInside(s[1..]);
      assert s == "\"" + (Doubled(inner) + after);
      if after == "" {
        cell, rest := Unclosed(inner), "";
      } else {
        var tail;
        tail, rest := SplitPlain(after[1..]);
        assert after == "\"" + (tail + rest);
        cell := Quoted(inner, tail);
      }
    }
  }

  /** Every input is a row of cells. */
  lemma {:induction false} EveryInputIsARow(s: string) returns (cells: seq<Cell>)
    ensures ValidRow(cells) && Render(cells) == s
    decreases |s|
  {
    hide RenderCell, Valid;
    var cell, rest := FirstCell(s);
    if rest == "" {
      cells := [cell];
    } else {
      var more := EveryInputIsARow(rest[1..]);
      cells := [cell] + more;
      assert cells[1..] == more;
      assert rest == "," + rest[1..];
      assert forall i :: 0 < i < |cells| ==> cells[i] == more[i - 1];
    }
  }

  /** The commas outside quotes; a quote opens a field only where the field is still empty. */
  function OutsideCommas(s: string, empty: bool, inQuotes: bool): nat
    decreases |s|
  {
    if s == "" then 0
    else if inQuotes then
      if s[0] != '"' then OutsideCommas(s[1..], false, true)
      else if |s| > 1 && s[1] == '"' then OutsideCommas(s[2..], false, true)
      else OutsideCommas(s[1..], empty, false)
    else if s[0] == ',' then 1 + OutsideCommas(s[1..], true, false)
    else if s[0] == '"' && empty then OutsideCommas(s[1..], true, true)
    else OutsideCommas(s[1..], false, false)
  }

  lemma {:induction false} FieldCount(s: string, field: string, inQuotes: bool)
    ensures |ParseFrom(s, field, inQuotes)| == 1 + OutsideCommas(s, field == "", inQuotes)
    decreases |s|
  {
    if s == "" {
    } else if s[0] == '"' && !inQuotes && field == "" {
      FieldCount(s[1..], field, true);
    } else if s[0] == '"' && inQuotes && |s| > 1 && s[1] == '"' {
      FieldCount(s[2..], field + "\"", true);
    } else if s[0] == '"' && inQuotes {
      FieldCount(s[1..], field, false);
    } else if s[0] == ',' && !inQuotes {
      FieldCount(s[1..], "", false);
    } else {
      FieldCount(s[1..], field + [s[0]], inQuotes);
    }
  }

  // ----- round trip

  function QuoteAll(fields: seq<string>): (cells: seq<Cell>)
    ensures |cells| == |fields| && forall i :: 0 <= i < |cells| ==> cells[i] == Quoted(fields[i], "")
  {
    seq(|fields|, i requires 0 <= i < |fields| => Quoted(fields[i], ""))
  }

  lemma {:induction false} QuotedValues(fields: seq<string>)
    ensures Values(QuoteAll(fields)) == fields
    decreases |fields|
  {
    if fields != [] {
      assert QuoteAll(fields)[1..] == QuoteAll(fields[1..]);
      QuotedValues(fields[1..]);
      assert fields[0] + "" == fields[0] && fields == [fields[0]] + fields[1..];
    }
  }

  /** Fields that are quoted, with quotes doubled, and joined with commas are parsed back. */
  lemma QuotingRoundTrip(fields: seq<string>)
    requires fields != []
    ensures ParseFrom(Render(QuoteAll(fields)), "", false) == fields
  {
    hide ParseFrom, Render, Values;
    ParseRow(QuoteAll(fields));
    QuotedValues(fields);
  }
}
