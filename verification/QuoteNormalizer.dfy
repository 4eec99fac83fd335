/** Converting Python-style quoting and literals to JSON. */
module QuoteNormalizer {
  import opened JsonText

  datatype Quote = Outside | Single | Double

  predicate WordChar(c: char) {
    'a' <= c <= 'z' || 'A' <= c <= 'Z' || '0' <= c <= '9' || c == '_'
  }

  /** The end of the run of word characters from `i` on. */
  function WordEnd(s: string, i: nat): (e: nat)
    requires i <= |s|
    ensures i <= e <= |s| && (e < |s| ==> !WordChar(s[e]))
    ensures forall k :: i <= k < e ==> WordChar(s[k])
    decreases |s| - i
  {
    if i < |s| && WordChar(s[i]) then WordEnd(s, i + 1) else i
  }

  predicate LiteralStart(c: char) {
    c == 'T' || c == 'F' || c == 'N'
  }

  function PythonLiteral(c: char): string {
    if c == 'T' then "True" else if c == 'F' then "False" else "None"
  }

  function JsonLiteral(c: char): (js: string)
    ensures |js| == |PythonLiteral(c)|
  {
    if c == 'T' then "true" else if c == 'F' then "false" else "null"
  }

  /** A word is taken for a literal as soon as it is a beginning of one, so that streamed words convert early. */
  predicate LiteralWord(word: string) {
    word != [] && LiteralStart(word[0]) && word <= PythonLiteral(word[0])
  }

  predicate WordStart(s: string, i: nat)
    requires i <= |s|
  {
    i == 0 || !WordChar(s[i - 1])
  }

  /** What is written for the next `len` characters, and the quoting after them. */
  datatype Unit = Unit(text: string, len: nat, next: Quote)

  function UnitAt(s: string, i: nat, q: Quote): (u: Unit)
    requires i < |s|
    ensures 1 <= u.len <= |s| - i
  {
    match q
    case Outside => OutsideUnit(s, i)
    case Single => SingleUnit(s, i)
    case Double => DoubleUnit(s, i)
  }

  /** Inside single quotes: the delimiters become double quotes, and what is quoted changes accordingly. */
  function SingleUnit(s: string, i: nat): (u: Unit)
    requires i < |s|
    ensures 1 <= u.len <= |s| - i
  {
    if s[i] == '\\' && i + 1 < |s| then
      if s[i + 1] == '\'' then Unit("'", 2, Single) else Unit([s[i], s[i + 1]], 2, Single)
    else if s[i] == '\"' then Unit("\\\"", 1, Single)
    else if s[i] == '\'' then Unit("\"", 1, Outside)
    else Unit([s[i]], 1, Single)
  }

  function DoubleUnit(s: string, i: nat): (u: Unit)
    requires i < |s|
    ensures 1 <= u.len <= |s| - i
  {
    if s[i] == '\\' && i + 1 < |s| then Unit([s[i], s[i + 1]], 2, Double)
    else Unit([s[i]], 1, if s[i] == '\"' then Outside else Double)
  }

  function OutsideUnit(s: string, i: nat): (u: Unit)
    requires i < |s|
    ensures 1 <= u.len <= |s| - i
  {
    if s[i] == '\"' then Unit("\"", 1, Double)
    else if s[i] == '\'' then Unit("\"", 1, Single)
    else if LiteralStart(s[i]) && WordStart(s, i) && LiteralWord(s[i..WordEnd(s, i)]) then
      Unit(JsonLiteral(s[i])[..WordEnd(s, i) - i], WordEnd(s, i) - i, Outside)
    else Unit([s[i]], 1, Outside)
  }

  /** The conversion of `s` from position `i` on. */
  function Convert(s: string, i: nat, q: Quote): string
    requires i <= |s|
    decreases |s| - i
  {
    if i == |s| then [] else UnitAt(s, i, q).text + Convert(s, i + UnitAt(s, i, q).len, UnitAt(s, i, q).next)
  }

  function Normalize(s: string): string {
    Convert(s, 0, Outside)
  }

  method WordLength(input: string, i: nat) returns (n: nat)
    requires i <= |input|
    ensures i + n == WordEnd(input, i)
  {
    n := 0;
    while i + n < |input| && WordChar(input[i + n])
      invariant 0 <= n <= |input| - i
      invariant WordEnd(input, i) == WordEnd(input, i + n)
    {
      n := n + 1;
    }
  }

  lemma ConvertNext(s: string, i: nat, q: Quote, before: string)
    requires i < |s|
    ensures var u := UnitAt(s, i, q);
            before + Convert(s, i, q) == (before + u.text) + Convert(s, i + u.len, u.next)
  {
  }

  function Quoting(inSingle: bool, inDouble: bool): Quote {
    if inSingle then Single else if inDouble then Double else Outside
  }

  /** One round of the conversion loop: the text to append, the characters consumed, and the flags after them. */
  method ConvertUnit(input: string, i: nat, inSingle: bool, inDouble: bool)
    returns (text: string, len: nat, nowSingle: bool, nowDouble: bool)
    requires i < |input| && !(inSingle && inDouble)
    ensures UnitAt(input, i, Quoting(inSingle, inDouble)) == Unit(text, len, Quoting(nowSingle, nowDouble))
    ensures !(nowSingle && nowDouble)
  {
    var c := input[i];
    text, len, nowSingle, nowDouble := [c], 1, inSingle, inDouble;
    if c == '\\' && i + 1 < |input| {
      if inSingle && input[i + 1] == '\'' {
        text, len := "'", 2;
      } else if inSingle || inDouble {
        text, len := [c, input[i + 1]], 2;
      }
    } else if c == '\"' {
      if inSingle {
        text := "\\\"";
      } else {
        nowDouble := !inDouble;
      }
    } else if c == '\'' {
      if !inDouble {
        nowSingle := !inSingle;
        text := "\"";
      }
    } else if !inSingle && !inDouble && LiteralStart(c) && (i == 0 || !WordChar(input[i - 1])) {
      var n := WordLength(input, i);
      assert c == input[i..i + n][0];
      if input[i..i + n] <= PythonLiteral(c) {
        text, len := JsonLiteral(c)[..n], n;
      }
    }
  }

  method NormalizeQuotesToJson(input: string) returns (result: string)
    ensures result == Normalize(input)
  {
    hide Convert, UnitAt;
    ConvertNothing(input);
    result := [];
    var inSingle, inDouble := false, false;
    var i := 0;
    while i < |input|
      invariant 0 <= i <= |input| && !(inSingle && inDouble)
      invariant Normalize(input) == result + Convert(input, i, Quoting(inSingle, inDouble))
    {
      ConvertNext(input, i, Quoting(inSingle, inDouble), result);
      var text, len;
      text, len, inSingle, inDouble := ConvertUnit(input, i, inSingle, inDouble);
      result := result + text;
      i := i + len;
    }
  }

  lemma ConvertNothing(s: string)
    ensures forall q :: Convert(s, |s|, q) == []
  {
  }

  // ----- braces

  /** A scan of the input for unclosed braces outside single- and double-quoted strings. */
  datatype PyScan = PyScan(depth: int, quote: Quote, escaped: bool)

  const PY_START := PyScan(0, Outside, false)

  function PyChar(st: PyScan, c: char): PyScan {
    if st.escaped then st.(escaped := false)
    else match st.quote
         case Outside =>
           (match c
            case '\'' => st.(quote := Single)
            case '\"' => st.(quote := Double)
            case '{' => st.(depth := st.depth + 1)
            case '}' => st.(depth := st.depth - 1)
            case _ => st)
         case Single => if c == '\\' then st.(escaped := true) else if c == '\'' then st.(quote := Outside) else st
         case Double => if c == '\\' then st.(escaped := true) else if c == '\"' then st.(quote := Outside) else st
  }

  function PyText(st: PyScan, s: string): PyScan
    decreases s
  {
    if s == [] then st else PyText(PyChar(st, s[0]), s[1..])
  }

  lemma {:induction false} PyConcat(st: PyScan, a: string, b: string)
    ensures PyText(st, a + b) == PyText(PyText(st, a), b)
    decreases a
  {
    if a == [] {
      assert a + b == b;
    } else {
      PyConcat(PyChar(st, a[0]), a[1..], b);
      assert (a + b)[1..] == a[1..] + b;
    }
  }

  lemma {:induction false} PyPlain(st: PyScan, s: string)
    requires !st.escaped && forall c :: c in s ==> Plain(c)
    ensures PyText(st, s) == st
  {
    if s != [] {
      assert s[0] in s && PyChar(st, s[0]) == st;
      PyPlain(st, s[1..]);
    }
  }

  ghost predicate Alike(js: Scan, py: PyScan) {
    js.depth == py.depth && js.escaped == py.escaped && (js.inString <==> py.quote != Outside)
  }

  /** The scanner of the output is where the scanner of the input is, after every unit. */
  lemma UnitSimulates(s: string, i: nat, js: Scan, py: PyScan)
    requires i < |s| && Alike(js, py) && !py.escaped
    ensures var u := UnitAt(s, i, py.quote);
            && Alike(ScanText(js, u.text), PyText(py, s[i..i + u.len]))
            && PyText(py, s[i..i + u.len]).quote == u.next
            && (PyText(py, s[i..i + u.len]).escaped ==> i + u.len == |s|)
  {
    hide ScanText, PyText;
    match py.quote
    case Outside => OutsideSimulates(s, i, js, py);
    case Single => SingleSimulates(s, i, js, py);
    case Double => DoubleSimulates(s, i, js, py);
  }

  lemma OutsideSimulates(s: string, i: nat, js: Scan, py: PyScan)
    requires i < |s| && Alike(js, py) && !py.escaped && py.quote == Outside
    ensures var u := OutsideUnit(s, i);
            && Alike(ScanText(js, u.text), PyText(py, s[i..i + u.len]))
            && PyText(py, s[i..i + u.len]) == PyText(py, s[i..i + u.len]).(quote := u.next, escaped := false)
  {
    hide ScanText, PyText;
    var u := OutsideUnit(s, i);
    if u.len == 1 {
      PyOne(s, i, py);
      ScanOne(js, u.text);
      if LiteralStart(s[i]) {
        LiteralsPlain(s[i], 1);
      }
    } else {
      LiteralSimulates(s, i, js, py);
    }
  }

  lemma SingleSimulates(s: string, i: nat, js: Scan, py: PyScan)
    requires i < |s| && Alike(js, py) && !py.escaped && py.quote == Single
    ensures var u := SingleUnit(s, i);
            && Alike(ScanText(js, u.text), PyText(py, s[i..i + u.len]))
            && PyText(py, s[i..i + u.len]).quote == u.next
            && (PyText(py, s[i..i + u.len]).escaped ==> i + u.len == |s|)
  {
    hide ScanText, PyText;
    var u := SingleUnit(s, i);
    if u.len == 1 {
      PyOne(s, i, py);
    } else {
      PyTwo(s, i, py);
    }
    if |u.text| == 1 {
      ScanOne(js, u.text);
    } else {
      ScanTwo(js, u.text[0], u.text[1]);
      assert u.text == [u.text[0], u.text[1]];
    }
  }

  lemma DoubleSimulates(s: string, i: nat, js: Scan, py: PyScan)
    requires i < |s| && Alike(js, py) && !py.escaped && py.quote == Double
    ensures var u := DoubleUnit(s, i);
            && Alike(ScanText(js, u.text), PyText(py, s[i..i + u.len]))
            && PyText(py, s[i..i + u.len]).quote == u.next
            && (PyText(py, s[i..i + u.len]).escaped ==> i + u.len == |s|)
  {
    hide ScanText, PyText;
    if DoubleUnit(s, i).len == 1 {
      PyOne(s, i, py);
      ScanOne(js, DoubleUnit(s, i).text);
    } else {
      PyTwo(s, i, py);
      ScanTwo(js, s[i], s[i + 1]);
    }
  }

  lemma ScanOne(st: Scan, text: string)
    requires |text| == 1
    ensures ScanText(st, text) == ScanChar(st, text[0])
  {
  }

  lemma PyOne(s: string, i: nat, py: PyScan)
    requires i < |s|
    ensures PyText(py, s[i..i + 1]) == PyChar(py, s[i])
  {
  }

  lemma PyTwo(s: string, i: nat, py: PyScan)
    requires i + 1 < |s|
    ensures PyText(py, s[i..i + 2]) == PyChar(PyChar(py, s[i]), s[i + 1])
  {
    PyConcat(py, s[i..i + 1], s[i + 1..i + 2]);
    assert s[i..i + 1] + s[i + 1..i + 2] == s[i..i + 2];
    PyOne(s, i, py);
    PyOne(s, i + 1, PyChar(py, s[i]));
  }

  lemma LiteralSimulates(s: string, i: nat, js: Scan, py: PyScan)
    requires i < |s| && !js.escaped && !py.escaped && OutsideUnit(s, i).len > 1
    ensures ScanText(js, OutsideUnit(s, i).text) == js && PyText(py, s[i..i + OutsideUnit(s, i).len]) == py
  {
    var u := OutsideUnit(s, i);
    LiteralsPlain(s[i], u.len);
    ScanPlain(js, u.text);
    forall c | c in s[i..i + u.len]
      ensures Plain(c)
    {
      var k :| 0 <= k < u.len && s[i..i + u.len][k] == c;
      assert WordChar(s[i + k]);
    }
    PyPlain(py, s[i..i + u.len]);
  }

  lemma LiteralsPlain(c: char, n: nat)
    requires LiteralStart(c) && n <= |JsonLiteral(c)|
    ensures forall k :: k in JsonLiteral(c)[..n] ==> Plain(k)
  {
  }

  lemma {:induction false} ConvertSimulates(s: string, i: nat, js: Scan, py: PyScan)
    requires i <= |s| && Alike(js, py) && (py.escaped ==> i == |s|)
    ensures Alike(ScanText(js, Convert(s, i, py.quote)), PyText(py, s[i..]))
    decreases |s| - i
  {
    hide Convert, UnitAt, ScanText, PyText;
    if i == |s| {
      NothingLeft(s, js, py);
    } else {
      var u := UnitAt(s, i, py.quote);
      UnitSimulates(s, i, js, py);
      ConvertSimulates(s, i + u.len, ScanText(js, u.text), PyText(py, s[i..i + u.len]));
      ConvertSplits(s, i, py.quote);
      Glue(js, py, u.text, Convert(s, i + u.len, u.next), s[i..i + u.len], s[i + u.len..], Convert(s, i, py.quote), s[i..]);
    }
  }

  lemma NothingLeft(s: string, js: Scan, py: PyScan)
    ensures Convert(s, |s|, py.quote) == [] && ScanText(js, Convert(s, |s|, py.quote)) == js && PyText(py, s[|s|..]) == py
  {
  }

  lemma Glue(js: Scan, py: PyScan, text: string, output: string, taken: string, input: string, outputAll: string, inputAll: string)
    requires outputAll == text + output && inputAll == taken + input
    requires Alike(ScanText(ScanText(js, text), output), PyText(PyText(py, taken), input))
    ensures Alike(ScanText(js, outputAll), PyText(py, inputAll))
  {
    ScanConcat(js, text, output);
    PyConcat(py, taken, input);
  }

  lemma ConvertSplits(s: string, i: nat, q: Quote)
    requires i < |s|
    ensures var u := UnitAt(s, i, q);
            && Convert(s, i, q) == u.text + Convert(s, i + u.len, u.next)
            && s[i..] == s[i..i + u.len] + s[i + u.len..]
  {
  }

  /** The brace count of the output is the number of unclosed braces outside the strings of the input. */
  lemma NormalizeKeepsBraces(s: string)
    ensures BraceDepth(Normalize(s)) == PyText(PY_START, s).depth
    ensures ScanText(SCAN_START, Normalize(s)).inString <==> PyText(PY_START, s).quote != Outside
  {
    ConvertSimulates(s, 0, SCAN_START, PY_START);
    assert s[0..] == s;
  }

  /** A converted value appended outside strings changes the count by the value's own unclosed braces. */
  lemma AppendedValueKeepsBraces(args: string, value: string)
    requires !ScanText(SCAN_START, args).inString && !ScanText(SCAN_START, args).escaped
    ensures BraceDepth(args + Normalize(value)) == PyText(PyScan(BraceDepth(args), Outside, false), value).depth
  {
    var js := ScanText(SCAN_START, args);
    ScanConcat(SCAN_START, args, Normalize(value));
    ConvertSimulates(value, 0, js, PyScan(js.depth, Outside, false));
    assert value[0..] == value;
  }
}
