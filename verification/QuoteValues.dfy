/** Whole Python values, arbitrarily nested, convert to the JSON of the same value. */
module QuoteValues {
  import opened Basics
  import opened JsonText
  import opened QuoteNormalizer
  import opened QuoteMeaning
  import QuotePrefix
  import R = JsonReader

  /** A Python value; numbers are given by their text, strings and keys by the inside of their single or double quotes. */
  datatype Value =
    | Nothing
    | Boolean(b: bool)
    | Number(text: string)
    | Text(inside: string, double: bool)
    | List(values: seq<Value>)
    | Dict(entries: seq<Entry>)

  datatype Entry = Entry(key: string, double: bool, value: Value)

  datatype Style = Python | Json

  predicate NumberChar(c: char) {
    '0' <= c <= '9' || c == '+' || c == '-' || c == '.' || c == 'e' || c == 'E'
  }

  predicate Valid(v: Value) {
    match v
    case Number(text) => text != [] && forall c :: c in text ==> NumberChar(c)
    case Text(inside, double) => PyUnescape(inside, double).Some?
    case List(values) => forall w :: w in values ==> Valid(w)
    case Dict(entries) => forall e :: e in entries ==> PyUnescape(e.key, e.double).Some? && Valid(e.value)
    case _ => true
  }

  function Quoted(inside: string, double: bool, style: Style): string {
    if style == Python then [Delimiter(double)] + inside + [Delimiter(double)]
    else "\"" + JsonInside(inside, double) + "\""
  }

  /** The value as written in Python or in JSON, with the spacing of Python's repr. */
  function Render(v: Value, style: Style): string {
    match v
    case Nothing => if style == Python then "None" else "null"
    case Boolean(b) => if style == Python then (if b then "True" else "False") else (if b then "true" else "false")
    case Number(text) => text
    case Text(inside, double) => Quoted(inside, double, style)
    case List(values) => "[" + (RenderItems(values, style) + "]")
    case Dict(entries) => "{" + (RenderEntries(entries, style) + "}")
  }

  function Separator(left: nat): string {
    if left > 1 then ", " else ""
  }

  function RenderItems(values: seq<Value>, style: Style): string {
    if values == [] then []
    else Render(values[0], style) + (Separator(|values|) + RenderItems(values[1..], style))
  }

  function RenderEntries(entries: seq<Entry>, style: Style): string {
    if entries == [] then []
    else Quoted(entries[0].key, entries[0].double, style)
         + (": " + (Render(entries[0].value, style) + (Separator(|entries|) + RenderEntries(entries[1..], style))))
  }

  /** From `i` to `end` the input converts to `text`, outside strings on both ends. */
  ghost predicate Converts(s: string, i: nat, end: nat, text: string) {
    i <= end <= |s| && Convert(s, i, Outside) == text + Convert(s, end, Outside)
  }

  predicate Boundary(s: string, i: nat) {
    i >= |s| || !WordChar(s[i])
  }

  lemma Chain(s: string, i: nat, m: nat, end: nat, a: string, b: string, all: string)
    requires Converts(s, i, m, a) && Converts(s, m, end, b) && all == a + b
    ensures Converts(s, i, end, all)
  {
    hide Convert;
    Append(Convert(s, i, Outside), a, Convert(s, m, Outside), b, Convert(s, end, Outside), all);
  }

  lemma Append(whole: string, a: string, middle: string, b: string, rest: string, all: string)
    requires whole == a + middle && middle == b + rest && all == a + b
    ensures whole == all + rest
  {
  }

  lemma AtSplit(s: string, i: nat, a: string, b: string)
    requires At(s, i, a + b)
    ensures At(s, i, a) && At(s, i + |a|, b)
  {
    var all := s[i..i + |a + b|];
    assert all[..|a|] == s[i..i + |a|] && all[|a|..] == s[i + |a|..i + |a| + |b|];
  }

  lemma AtBounds(s: string, i: nat, x: string)
    requires At(s, i, x)
    ensures i + |x| <= |s|
  {
  }

  lemma AtChar(s: string, i: nat, x: string, k: nat)
    requires At(s, i, x) && k < |x|
    ensures s[i + k] == x[k]
  {
  }

  /** Characters that are neither quotes nor the start of a literal are copied. */
  lemma {:induction false} Copies(s: string, i: nat, text: string, end: nat)
    requires At(s, i, text) && end == i + |text|
    requires forall c :: c in text ==> c != '\'' && c != '\"' && !LiteralStart(c)
    ensures Converts(s, i, end, text)
    decreases text
  {
    hide Convert;
    if text != [] {
      AtChar(s, i, text, 0);
      assert text[0] in text;
      AtSplit(s, i, text[..1], text[1..]);
      assert text == text[..1] + text[1..];
      assert forall c :: c in text[1..] ==> c in text;
      Copies(s, i + 1, text[1..], end);
      CopiesChar(s, i);
      Chain(s, i, i + 1, end, text[..1], text[1..], text);
    }
  }

  lemma CopiesChar(s: string, i: nat)
    requires i < |s| && s[i] != '\'' && s[i] != '\"' && !LiteralStart(s[i])
    ensures Converts(s, i, i + 1, [s[i]])
  {
  }

  lemma WordIsLiteral(word: string)
    requires word == "True" || word == "False" || word == "None"
    ensures LiteralWord(word) && |JsonLiteral(word[0])| == |word|
    ensures forall k :: 0 <= k < |word| ==> WordChar(word[k])
  {
  }

  lemma LiteralConvertsTo(s: string, i: nat, word: string, end: nat)
    requires At(s, i, word) && end == i + |word| && WordStart(s, i) && Boundary(s, end)
    requires word == "True" || word == "False" || word == "None"
    ensures Converts(s, i, end, JsonLiteral(word[0]))
  {
    hide Convert, LiteralWord, JsonLiteral, WordChar, WordStart;
    WordIsLiteral(word);
    forall k | i <= k < end
      ensures WordChar(s[k])
    {
      AtChar(s, i, word, k - i);
    }
    AtChar(s, i, word, 0);
    QuotePrefix.WordEndUnique(s, i, end);
    QuotePrefix.LiteralConverts(s, i);
  }

  lemma QuotedConverts(s: string, i: nat, inside: string, double: bool, end: nat)
    requires At(s, i, Quoted(inside, double, Python)) && end == i + |Quoted(inside, double, Python)|
    requires PyUnescape(inside, double).Some?
    ensures Converts(s, i, end, Quoted(inside, double, Json))
  {
    hide Convert, At, PyUnescape, JsonInside, Delimiter, Inside;
    var quote, json := [Delimiter(double)], JsonInside(inside, double);
    assert Quoted(inside, double, Python) == quote + (inside + quote);
    AtSplit(s, i, quote, inside + quote);
    AtBounds(s, i, Quoted(inside, double, Python));
    OpeningQuote(s, i, double);
    QuotedRest(s, i + 1, inside, double, end);
    Regroup("\"", json, Convert(s, end, Outside), Convert(s, i + 1, Inside(double)), "\"" + json);
  }

  lemma {:induction false} ConvertsValue(s: string, i: nat, v: Value, end: nat)
    requires Valid(v) && At(s, i, Render(v, Python)) && end == i + |Render(v, Python)|
    requires WordStart(s, i) && Boundary(s, end)
    ensures Converts(s, i, end, Render(v, Json))
    decreases v, 2
  {
    hide Convert, Converts, Boundary, At;
    match v
    case Nothing => LiteralConvertsTo(s, i, "None", end);
    case Boolean(b) => LiteralConvertsTo(s, i, if b then "True" else "False", end);
    case Number(text) => Copies(s, i, text, end);
    case Text(inside, double) => QuotedConverts(s, i, inside, double, end);
    case List(values) => ConvertsList(s, i, values, end);
    case Dict(entries) => ConvertsDict(s, i, entries, end);
  }

  lemma {:induction false} ConvertsList(s: string, i: nat, values: seq<Value>, end: nat)
    requires (forall w :: w in values ==> Valid(w)) && At(s, i, "[" + (RenderItems(values, Python) + "]"))
    requires end == i + |"[" + (RenderItems(values, Python) + "]")|
    ensures Converts(s, i, end, "[" + (RenderItems(values, Json) + "]"))
    decreases values, 1
  {
    hide Convert, Converts, RenderItems, At, Valid;
    Bracketed(s, i, "[", RenderItems(values, Python), "]", end);
    ConvertsItems(s, i + 1, values, end - 1);
    InBrackets(s, i, "[", RenderItems(values, Json), "]", end);
  }

  lemma {:induction false} ConvertsDict(s: string, i: nat, entries: seq<Entry>, end: nat)
    requires forall e :: e in entries ==> PyUnescape(e.key, e.double).Some? && Valid(e.value)
    requires At(s, i, "{" + (RenderEntries(entries, Python) + "}"))
    requires end == i + |"{" + (RenderEntries(entries, Python) + "}")|
    ensures Converts(s, i, end, "{" + (RenderEntries(entries, Json) + "}"))
    decreases entries, 1
  {
    hide Convert, Converts, RenderEntries, At, Valid;
    Bracketed(s, i, "{", RenderEntries(entries, Python), "}", end);
    ConvertsEntries(s, i + 1, entries, end - 1);
    InBrackets(s, i, "{", RenderEntries(entries, Json), "}", end);
  }

  lemma Bracketed(s: string, i: nat, open: string, inner: string, close: string, end: nat)
    requires At(s, i, open + (inner + close)) && end == i + |inner| + 2
    requires (open == "[" && close == "]") || (open == "{" && close == "}")
    ensures At(s, i, open) && At(s, i + 1, inner) && At(s, end - 1, close)
    ensures WordStart(s, i + 1) && Boundary(s, end - 1)
  {
    AtSplit(s, i, open, inner + close);
    AtSplit(s, i + 1, inner, close);
    AtChar(s, i, open, 0);
    AtChar(s, end - 1, close, 0);
  }

  lemma InBrackets(s: string, i: nat, open: string, inner: string, close: string, end: nat)
    requires i + 2 <= end && At(s, i, open) && At(s, end - 1, close) && Converts(s, i + 1, end - 1, inner)
    requires (open == "[" && close == "]") || (open == "{" && close == "}")
    ensures Converts(s, i, end, open + (inner + close))
  {
    hide At, Converts;
    AtBounds(s, end - 1, close);
    Copies(s, i, open, i + 1);
    Copies(s, end - 1, close, end);
    Chain(s, i + 1, end - 1, end, inner, close, inner + close);
    Chain(s, i, i + 1, end, open, inner + close, open + (inner + close));
  }

  /** After an element: the separator if another one follows. */
  lemma AfterElement(s: string, i: nat, left: nat, rest: string, end: nat)
    requires At(s, i, Separator(left) + rest) && end == i + |Separator(left) + rest| && Boundary(s, end)
    requires left <= 1 ==> rest == []
    ensures Boundary(s, i)
    ensures At(s, i + |Separator(left)|, rest) && Converts(s, i, i + |Separator(left)|, Separator(left))
    ensures left > 1 ==> WordStart(s, i + |Separator(left)|)
  {
    hide At, Converts;
    AtSplit(s, i, Separator(left), rest);
    AtBounds(s, i, Separator(left));
    Copies(s, i, Separator(left), i + |Separator(left)|);
    if left > 1 {
      AtChar(s, i, ", ", 0);
      AtChar(s, i, ", ", 1);
    }
  }

  lemma {:induction false} ConvertsItems(s: string, i: nat, values: seq<Value>, end: nat)
    requires (forall w :: w in values ==> Valid(w)) && At(s, i, RenderItems(values, Python))
    requires end == i + |RenderItems(values, Python)| && WordStart(s, i) && Boundary(s, end)
    ensures Converts(s, i, end, RenderItems(values, Json))
    decreases values, 0
  {
    hide Convert, Converts, Valid, At, Boundary, WordStart, Render;
    AtBounds(s, i, RenderItems(values, Python));
    if values == [] {
      NoneConverts(s, i);
    } else {
      var first, rest := Render(values[0], Python), RenderItems(values[1..], Python);
      var sep, restJson := Separator(|values|), RenderItems(values[1..], Json);
      AtSplit(s, i, first, sep + rest);
      var m := i + |first|;
      AfterElement(s, m, |values|, rest, end);
      ConvertsValue(s, i, values[0], m);
      if |values| > 1 {
        ConvertsItems(s, m + |sep|, values[1..], end);
      } else {
        NoneConverts(s, end);
      }
      Chain(s, m, m + |sep|, end, sep, restJson, sep + restJson);
      Chain(s, i, m, end, Render(values[0], Json), sep + restJson, RenderItems(values, Json));
    }
  }

  lemma {:induction false} ConvertsEntries(s: string, i: nat, entries: seq<Entry>, end: nat)
    requires forall e :: e in entries ==> PyUnescape(e.key, e.double).Some? && Valid(e.value)
    requires At(s, i, RenderEntries(entries, Python))
    requires end == i + |RenderEntries(entries, Python)| && WordStart(s, i) && Boundary(s, end)
    ensures Converts(s, i, end, RenderEntries(entries, Json))
    decreases entries, 0
  {
    hide Convert, Converts, Valid, At, Quoted, Render, Separator, Boundary, WordStart;
    AtBounds(s, i, RenderEntries(entries, Python));
    if entries == [] {
      NoneConverts(s, i);
    } else {
      var m, n, p := EntryParts(s, i, entries, end);
      QuotedConverts(s, i, entries[0].key, entries[0].double, m);
      ConvertsValue(s, m + 2, entries[0].value, n);
      if |entries| > 1 {
        ConvertsEntries(s, p, entries[1..], end);
      } else {
        AtBounds(s, p, RenderEntries(entries[1..], Python));
        NoneConverts(s, p);
      }
      ChainEntry(s, i, m, n, p, end, entries);
    }
  }

  lemma NoneConverts(s: string, i: nat)
    requires i <= |s|
    ensures Converts(s, i, i, [])
  {
  }

  /** Where the first entry's key and value end, and where the rest begins. */
  lemma EntryParts(s: string, i: nat, entries: seq<Entry>, end: nat) returns (m: nat, n: nat, p: nat)
    requires entries != [] && At(s, i, RenderEntries(entries, Python))
    requires end == i + |RenderEntries(entries, Python)| && Boundary(s, end)
    ensures m == i + |Quoted(entries[0].key, entries[0].double, Python)| && At(s, i, Quoted(entries[0].key, entries[0].double, Python))
    ensures Converts(s, m, m + 2, ": ") && WordStart(s, m + 2)
    ensures n == m + 2 + |Render(entries[0].value, Python)| && At(s, m + 2, Render(entries[0].value, Python)) && Boundary(s, n)
    ensures Converts(s, n, p, Separator(|entries|)) && At(s, p, RenderEntries(entries[1..], Python))
    ensures end == p + |RenderEntries(entries[1..], Python)| && (|entries| > 1 ==> WordStart(s, p)) && (|entries| == 1 ==> p == end)
  {
    hide Convert, Converts, Render, At, Quoted, Separator;
    var sep, rest := Separator(|entries|), RenderEntries(entries[1..], Python);
    var key, value := Quoted(entries[0].key, entries[0].double, Python), Render(entries[0].value, Python);
    m := i + |key|;
    n := m + 2 + |value|;
    p := n + |sep|;
    AtSplit(s, i, key, ": " + (value + (sep + rest)));
    AtSplit(s, m, ": ", value + (sep + rest));
    AtSplit(s, m + 2, value, sep + rest);
    AtChar(s, m, ": ", 1);
    AfterElement(s, n, |entries|, rest, end);
    Copies(s, m, ": ", m + 2);
  }

  lemma ChainEntry(s: string, i: nat, m: nat, n: nat, p: nat, end: nat, entries: seq<Entry>)
    requires entries != [] && Converts(s, i, m, Quoted(entries[0].key, entries[0].double, Json)) && Converts(s, m, m + 2, ": ")
    requires Converts(s, m + 2, n, Render(entries[0].value, Json)) && Converts(s, n, p, Separator(|entries|))
    requires Converts(s, p, end, RenderEntries(entries[1..], Json))
    ensures Converts(s, i, end, RenderEntries(entries, Json))
  {
    var value, sep, rest := Render(entries[0].value, Json), Separator(|entries|), RenderEntries(entries[1..], Json);
    Chain(s, n, p, end, sep, rest, sep + rest);
    Chain(s, m + 2, n, end, value, sep + rest, value + (sep + rest));
    Chain(s, m, m + 2, end, ": ", value + (sep + rest), ": " + (value + (sep + rest)));
    Chain(s, i, m, end, Quoted(entries[0].key, entries[0].double, Json), ": " + (value + (sep + rest)), RenderEntries(entries, Json));
  }

  /** The conversion of a Python value is the JSON of the same value. */
  lemma NormalizeConvertsValues(v: Value)
    requires Valid(v)
    ensures Normalize(Render(v, Python)) == Render(v, Json)
  {
    var s := Render(v, Python);
    assert s[0..|s|] == s;
    ConvertsValue(s, 0, v, |s|);
    assert Convert(s, |s|, Outside) == [];
  }

  // ----- what the converted value means

  /** No double-quoted string has an escaped single quote. */
  predicate Keeps(v: Value) {
    match v
    case Text(inside, double) => KeepsText(inside, double)
    case List(values) => forall w :: w in values ==> Keeps(w)
    case Dict(entries) => forall e :: e in entries ==> KeepsText(e.key, e.double) && Keeps(e.value)
    case _ => true
  }

  /** The value that a Python value stands for. */
  function PyMeaning(v: Value): R.Json
    requires Valid(v)
  {
    match v
    case Nothing => R.Atom("null")
    case Boolean(b) => R.Atom(if b then "true" else "false")
    case Number(text) => R.Atom(text)
    case Text(inside, double) => R.Text(PyUnescape(inside, double).value)
    case List(values) => R.List(PyItems(values))
    case Dict(entries) => R.Object(PyMembers(entries))
  }

  function PyItems(values: seq<Value>): seq<R.Json>
    requires forall w :: w in values ==> Valid(w)
  {
    if values == [] then [] else [PyMeaning(values[0])] + PyItems(values[1..])
  }

  function PyMembers(entries: seq<Entry>): seq<R.Member>
    requires forall e :: e in entries ==> PyUnescape(e.key, e.double).Some? && Valid(e.value)
  {
    if entries == [] then []
    else [R.Member(PyUnescape(entries[0].key, entries[0].double).value, PyMeaning(entries[0].value))] + PyMembers(entries[1..])
  }

  /** The JSON document that a value becomes. */
  function DocOf(v: Value): R.Doc {
    match v
    case Nothing => R.Word("null")
    case Boolean(b) => R.Word(if b then "true" else "false")
    case Number(text) => R.Word(text)
    case Text(inside, double) => R.Str(JsonInside(inside, double))
    case List(values) => R.Arr(DocsOf(values))
    case Dict(entries) => R.Obj(FieldsOf(entries))
  }

  function DocsOf(values: seq<Value>): (docs: seq<R.Doc>)
    ensures |docs| == |values|
  {
    if values == [] then [] else [DocOf(values[0])] + DocsOf(values[1..])
  }

  function FieldsOf(entries: seq<Entry>): (fields: seq<R.Field>)
    ensures |fields| == |entries|
  {
    if entries == [] then []
    else [R.Field(JsonInside(entries[0].key, entries[0].double), DocOf(entries[0].value))] + FieldsOf(entries[1..])
  }

  /** The rendered value is the text of a proper document with the same meaning. */
  ghost predicate IsDocument(v: Value)
    requires Valid(v)
  {
    R.Proper(DocOf(v)) && R.Meaning(DocOf(v)) == PyMeaning(v) && Render(v, Json) == R.Print(DocOf(v), " ")
  }

  lemma {:induction false} RendersDocument(v: Value)
    requires Valid(v) && Keeps(v)
    ensures IsDocument(v)
    decreases v, 0
  {
    match v
    case Nothing =>
    case Boolean(_) =>
    case Number(text) =>
      forall i | 0 <= i < |text|
        ensures R.AtomChar(text[i])
      {
        assert text[i] in text && NumberChar(text[i]);
      }
    case Text(inside, double) => StringKeepsTextIff(inside, double);
    case List(values) => ItemsRender(values);
    case Dict(entries) => EntriesRender(entries);
  }

  lemma {:induction false} ItemsRender(values: seq<Value>)
    requires forall w :: w in values ==> Valid(w) && Keeps(w)
    ensures forall d :: d in DocsOf(values) ==> R.Proper(d)
    ensures R.Meanings(DocsOf(values)) == PyItems(values) && RenderItems(values, Json) == R.PrintDocs(DocsOf(values), " ")
    decreases values
  {
    hide Valid, Keeps, DocOf, Render, R.Print, R.Proper, R.Meaning, PyMeaning;
    if values != [] {
      var docs := DocsOf(values);
      RendersDocument(values[0]);
      ItemsRender(values[1..]);
      assert docs[0] == DocOf(values[0]) && docs[1..] == DocsOf(values[1..]);
      AfterComma(Render(values[0], Json), RenderItems(values[1..], Json), |values|);
    }
  }

  lemma AfterComma(a: string, b: string, left: nat)
    ensures left > 1 ==> a + (Separator(left) + b) == a + ("," + (" " + b))
    ensures left == 1 && b == [] ==> a + (Separator(left) + b) == a
  {
    assert ", " + b == "," + (" " + b);
  }

  lemma {:induction false} EntriesRender(entries: seq<Entry>)
    requires forall e :: e in entries ==>
      PyUnescape(e.key, e.double).Some? && Valid(e.value) && KeepsText(e.key, e.double) && Keeps(e.value)
    ensures forall f :: f in FieldsOf(entries) ==> Unescape(f.key).Some? && R.Proper(f.value)
    ensures R.FieldMeanings(FieldsOf(entries)) == PyMembers(entries)
    ensures RenderEntries(entries, Json) == R.PrintFields(FieldsOf(entries), " ")
    decreases entries
  {
    hide Valid, Keeps, DocOf, Render, R.Print, R.Proper, R.Meaning, PyMeaning, R.PrintField;
    hide Unescape, PyUnescape, JsonInside, EscapesSingle;
    if entries != [] {
      var e, fields := entries[0], FieldsOf(entries);
      RendersDocument(e.value);
      StringKeepsTextIff(e.key, e.double);
      EntriesRender(entries[1..]);
      assert fields[0] == R.Field(JsonInside(e.key, e.double), DocOf(e.value)) && fields[1..] == FieldsOf(entries[1..]);
      EntryIsField(e, Render(e.value, Json), Separator(|entries|) + RenderEntries(entries[1..], Json));
      AfterComma(R.PrintField(fields[0], " "), RenderEntries(entries[1..], Json), |entries|);
    }
  }

  lemma EntryIsField(e: Entry, value: string, rest: string)
    requires value == R.Print(DocOf(e.value), " ")
    ensures Quoted(e.key, e.double, Json) + (": " + (value + rest))
            == R.PrintField(R.Field(JsonInside(e.key, e.double), DocOf(e.value)), " ") + rest
  {
    hide JsonInside, DocOf, R.Print;
    var key := "\"" + JsonInside(e.key, e.double) + "\"";
    assert key + (": " + (value + rest)) == key + (":" + (" " + value)) + rest;
  }

  /** A JSON reader reads the converted value as what the Python value stands for, for any nesting. */
  lemma NormalizeKeepsMeaning(v: Value)
    requires Valid(v) && Keeps(v)
    ensures R.ReadValue(Normalize(Render(v, Python))) == Some(R.Read(PyMeaning(v), []))
  {
    hide Render, R.Print, R.Proper, R.Meaning, PyMeaning, Valid, Keeps, R.ReadValue, Normalize, DocOf;
    NormalizeConvertsValues(v);
    RendersDocument(v);
    R.ReadsDocument(DocOf(v), " ");
  }
}
