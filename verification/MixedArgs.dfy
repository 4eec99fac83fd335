/** Tool calls whose arguments arrive one by one, as strings or as Python values: a JSON reader reads them back. */
module MixedArgs {
  import opened Basics
  import opened JsonText
  import opened ChatMessage
  import opened ToolMapper
  import opened TaggedArgs
  import Q = QuoteNormalizer
  import R = JsonReader
  import V = QuoteValues

  /** A string given as it is, or a value in Python's notation. */
  datatype Given = Str(text: string) | Py(value: V.Value)

  datatype Named = Named(name: string, given: Given)

  ghost predicate Fine(g: Given) {
    g.Py? ==> V.Valid(g.value) && V.Keeps(g.value)
  }

  /** The value as JSON, and what it means. */
  function ValueText(g: Given): string {
    match g
    case Str(text) => "\"" + Escape(text) + "\""
    case Py(value) => V.Render(value, V.Json)
  }

  ghost function Meaning(g: Given): R.Json
    requires Fine(g)
  {
    match g
    case Str(text) => R.Text(text)
    case Py(value) => V.PyMeaning(value)
  }

  function Entry(a: Named): string {
    "\"" + Escape(Trim(a.name)) + ("\"" + (":" + ValueText(a.given)))
  }

  /** The entries after `count` earlier ones. */
  function Entries(args: seq<Named>, count: nat): string {
    if args == [] then [] else (if count > 0 then "," else "") + Entry(args[0]) + Entries(args[1..], count + 1)
  }

  ghost function Members(args: seq<Named>): seq<R.Member>
    requires forall a :: a in args ==> Fine(a.given)
  {
    if args == [] then [] else [R.Member(Trim(args[0].name), Meaning(args[0].given))] + Members(args[1..])
  }

  // ----- reading the entries

  lemma ReadsGiven(g: Given, after: string)
    requires Fine(g) && R.Follows(after)
    ensures R.ReadValue(ValueText(g) + after) == Some(R.Read(Meaning(g), after))
  {
    hide R.ReadValue, Escape, Unescape, V.Render, V.PyMeaning, V.Valid, V.Keeps, R.Print, R.Meaning, R.Proper, V.DocOf;
    match g
    case Str(text) =>
      UnescapeEscape(text);
      R.ReadsStr(Escape(text), "", after);
      assert "" + ("\"" + Escape(text) + "\"" + after) == ValueText(g) + after;
    case Py(value) =>
      V.RendersDocument(value);
      R.ReadsBack(V.DocOf(value), " ", "", after);
      assert "" + (R.Print(V.DocOf(value), " ") + after) == ValueText(g) + after;
  }

  lemma {:induction false} ReadsEntries(args: seq<Named>, rest: string)
    requires args != [] && forall a :: a in args ==> Fine(a.given)
    ensures R.ReadMembers(Entries(args, 0) + ("}" + rest)) == Some(R.Read(Members(args), rest))
    decreases args
  {
    hide R.ReadMembers, R.ReadValue, Escape, Unescape, ValueText, Meaning, Trim, Fine;
    var a, more := args[0], Entries(args[1..], 1);
    var after := more + ("}" + rest);
    assert a in args;
    UnescapeEscape(Trim(a.name));
    if |args| > 1 {
      LaterEntries(args[1..], 1);
      assert after == "," + (Entries(args[1..], 0) + ("}" + rest));
      assert after[1..] == Entries(args[1..], 0) + ("}" + rest);
      ReadsEntries(args[1..], rest);
    } else {
      assert after == "}" + rest && after[1..] == rest;
    }
    ReadsGiven(a.given, after);
    R.ReadsEntry(Escape(Trim(a.name)), ValueText(a.given) + after, Meaning(a.given), "", after);
    EntryThen(a, more, rest);
    assert Entries(args, 0) == "" + Entry(a) + more;
    if |args| == 1 {
      assert args[1..] == [] && Members(args) == [R.Member(Trim(a.name), Meaning(a.given))];
    }
  }

  lemma EntryThen(a: Named, more: string, rest: string)
    ensures "" + Entry(a) + more + ("}" + rest)
            == "" + ("\"" + Escape(Trim(a.name)) + ("\"" + (":" + (ValueText(a.given) + (more + ("}" + rest))))))
  {
    hide Escape, Trim, ValueText;
  }

  lemma LaterEntries(args: seq<Named>, count: pos)
    requires args != []
    ensures Entries(args, count) == "," + Entries(args, 0)
  {
    hide Entry;
    SameAfterFirst(args[1..], count + 1, 1);
  }

  lemma {:induction false} SameAfterFirst(args: seq<Named>, a: pos, b: pos)
    ensures Entries(args, a) == Entries(args, b)
    decreases args
  {
    hide Entry;
    if args != [] {
      SameAfterFirst(args[1..], a + 1, b + 1);
    }
  }

  /** The closed object is read as an object with these members. */
  lemma ReadsObject(args: seq<Named>)
    requires forall a :: a in args ==> Fine(a.given)
    ensures R.ReadValue("{" + Entries(args, 0) + "}") == Some(R.Read(R.Object(Members(args)), []))
  {
    hide R.ReadMembers, Entry, Members, R.ReadItems, ParseString;
    var s := "{" + Entries(args, 0) + "}";
    assert s[1..] == Entries(args, 0) + ("}" + []);
    if args == [] {
      assert s == "{}" && s[1..] == "}" && s[1..][1..] == [];
      NoMembers();
    } else {
      ReadsEntries(args, []);
      StartsWithQuote(args);
    }
  }

  lemma NoMembers()
    ensures Members([]) == []
  {
  }

  lemma StartsWithQuote(args: seq<Named>)
    requires args != []
    ensures Entries(args, 0) != [] && Entries(args, 0)[0] == '\"'
  {
  }

  // ----- braces

  /** The inside of a string leaves a scan inside the string where it was. */
  lemma {:induction false} ScanInside(st: Scan, inside: string)
    requires st.inString && !st.escaped && Unescape(inside).Some?
    ensures ScanText(st, inside) == st
    decreases |inside|
  {
    if inside != [] {
      if inside[0] == '\\' {
        var n := if inside[1] == 'u' then 6 else 2;
        ScanEscape(st, inside, n);
        ScanInside(st, inside[n..]);
        ScanConcat(st, inside[..n], inside[n..]);
        assert inside[..n] + inside[n..] == inside;
      } else {
        assert ScanChar(st, inside[0]) == st;
        ScanInside(st, inside[1..]);
      }
    }
  }

  /** A backslash and what it escapes. */
  lemma ScanEscape(st: Scan, inside: string, n: nat)
    requires st.inString && !st.escaped && inside != [] && inside[0] == '\\' && Unescape(inside).Some?
    requires n == if inside[1] == 'u' then 6 else 2
    ensures n <= |inside| && ScanText(st, inside[..n]) == st
  {
    ScanTwo(st, inside[0], inside[1]);
    assert inside[..2] == [inside[0], inside[1]];
    if inside[1] == 'u' {
      R.HexPlain(inside);
      ScanFour(st, inside[..6]);
      assert inside[..6][2..6] == inside[2..6];
      ScanConcat(st, inside[..2], inside[2..6]);
      assert inside[..2] + inside[2..6] == inside[..6];
    }
  }

  lemma ScanFour(st: Scan, s: string)
    requires |s| == 6 && st.inString && !st.escaped && forall k :: 2 <= k < 6 ==> s[k] != '\"' && s[k] != '\\'
    ensures ScanText(st, s[2..6]) == st
  {
    ScanCalm(st, s[2..6]);
  }

  lemma {:induction false} ScanCalm(st: Scan, s: string)
    requires st.inString && !st.escaped && forall k :: 0 <= k < |s| ==> s[k] != '\"' && s[k] != '\\'
    ensures ScanText(st, s) == st
  {
    if s != [] {
      ScanCalm(st, s[1..]);
    }
  }

  lemma ScanString(st: Scan, inside: string)
    requires !st.inString && !st.escaped && Unescape(inside).Some?
    ensures ScanText(st, "\"" + inside + "\"") == st
  {
    hide Unescape;
    var quoted := st.(inString := true);
    ScanQuote(st);
    ScanInside(quoted, inside);
    ScanQuote(quoted);
    ScanConcat(st, "\"", inside);
    ScanConcat(st, "\"" + inside, "\"");
  }

  lemma {:induction false} ScanAtom(st: Scan, text: string)
    requires !st.inString && !st.escaped && forall i :: 0 <= i < |text| ==> R.AtomChar(text[i])
    ensures ScanText(st, text) == st
  {
    ScanPlain(st, text);
  }

  /** A document leaves a scan outside strings where it was. */
  lemma {:induction false} ScanDoc(st: Scan, d: R.Doc)
    requires !st.inString && !st.escaped && R.Proper(d)
    ensures ScanText(st, R.Print(d, " ")) == st
    decreases d, 0
  {
    match d
    case Word(text) => ScanAtom(st, text);
    case Str(inside) => ScanString(st, inside);
    case Arr(docs) =>
      ScanDocs(st, docs);
      ScanPlain(st, "[");
      ScanPlain(st, "]");
      ScanConcat(st, R.PrintDocs(docs, " "), "]");
      ScanConcat(st, "[", R.PrintDocs(docs, " ") + "]");
    case Obj(fields) =>
      var inner := st.(depth := st.depth + 1);
      ScanFields(inner, fields);
      ScanBrace(st);
      ScanConcat(inner, R.PrintFields(fields, " "), "}");
      ScanConcat(st, "{", R.PrintFields(fields, " ") + "}");
  }

  lemma ScanBrace(st: Scan)
    requires !st.inString && !st.escaped
    ensures ScanText(st, "{") == st.(depth := st.depth + 1) && ScanText(st, "}") == st.(depth := st.depth - 1)
  {
    assert "{"[1..] == [] && "}"[1..] == [];
  }

  lemma {:induction false} ScanDocs(st: Scan, docs: seq<R.Doc>)
    requires !st.inString && !st.escaped && forall x :: x in docs ==> R.Proper(x)
    ensures ScanText(st, R.PrintDocs(docs, " ")) == st
    decreases docs, 0
  {
    hide R.Print, R.Proper;
    if docs != [] {
      ScanDoc(st, docs[0]);
      if |docs| > 1 {
        ScanDocs(st, docs[1..]);
        ScanGap(st, ",", R.PrintDocs(docs[1..], " "));
        ScanConcat(st, R.Print(docs[0], " "), "," + (" " + R.PrintDocs(docs[1..], " ")));
      }
    }
  }

  lemma ScanGap(st: Scan, sign: string, rest: string)
    requires !st.inString && !st.escaped && (sign == "," || sign == ":") && ScanText(st, rest) == st
    ensures ScanText(st, sign + (" " + rest)) == st
  {
    ScanPlain(st, sign);
    ScanPlain(st, " ");
    ScanConcat(st, " ", rest);
    ScanConcat(st, sign, " " + rest);
  }

  lemma ScanField(st: Scan, f: R.Field)
    requires !st.inString && !st.escaped && Unescape(f.key).Some? && ScanText(st, R.Print(f.value, " ")) == st
    ensures ScanText(st, R.PrintField(f, " ")) == st
  {
    hide R.Print, Unescape;
    ScanString(st, f.key);
    ScanGap(st, ":", R.Print(f.value, " "));
    ScanConcat(st, "\"" + f.key + "\"", ":" + (" " + R.Print(f.value, " ")));
  }

  lemma {:induction false} ScanFields(st: Scan, fields: seq<R.Field>)
    requires !st.inString && !st.escaped && forall f :: f in fields ==> Unescape(f.key).Some? && R.Proper(f.value)
    ensures ScanText(st, R.PrintFields(fields, " ")) == st
    decreases fields, 0
  {
    hide R.Print, R.Proper, Unescape, R.PrintField;
    if fields != [] {
      ScanDoc(st, fields[0].value);
      ScanField(st, fields[0]);
      if |fields| > 1 {
        ScanFields(st, fields[1..]);
        ScanGap(st, ",", R.PrintFields(fields[1..], " "));
        ScanConcat(st, R.PrintField(fields[0], " "), "," + (" " + R.PrintFields(fields[1..], " ")));
      }
    }
  }

  lemma ScanGiven(st: Scan, g: Given)
    requires !st.inString && !st.escaped && Fine(g)
    ensures ScanText(st, ValueText(g)) == st
  {
    hide Escape, Unescape, V.Render, V.PyMeaning, V.Valid, V.Keeps, R.Print, R.Meaning, R.Proper, V.DocOf, ScanText;
    match g
    case Str(text) =>
      UnescapeEscape(text);
      ScanString(st, Escape(text));
    case Py(value) =>
      V.RendersDocument(value);
      ScanDoc(st, V.DocOf(value));
  }

  lemma ScanNamed(st: Scan, a: Named)
    requires !st.inString && !st.escaped && Fine(a.given)
    ensures ScanText(st, Entry(a)) == st
  {
    hide Escape, Trim, ValueText, Fine, ScanText, Unescape;
    var name := Escape(Trim(a.name));
    UnescapeEscape(Trim(a.name));
    ScanString(st, name);
    ScanGiven(st, a.given);
    ScanPlain(st, ":");
    ScanConcat(st, ":", ValueText(a.given));
    ScanConcat(st, "\"" + name + "\"", ":" + ValueText(a.given));
    assert Entry(a) == "\"" + name + "\"" + (":" + ValueText(a.given));
  }

  lemma {:induction false} ScanAll(st: Scan, args: seq<Named>, count: nat)
    requires !st.inString && !st.escaped && forall a :: a in args ==> Fine(a.given)
    ensures ScanText(st, Entries(args, count)) == st
    decreases args
  {
    hide Entry, Fine;
    if args != [] {
      var comma := if count > 0 then "," else "";
      ScanPlain(st, comma);
      ScanNamed(st, args[0]);
      ScanAll(st, args[1..], count + 1);
      ScanConcat(st, comma, Entry(args[0]));
      ScanConcat(st, comma + Entry(args[0]), Entries(args[1..], count + 1));
    }
  }

  lemma OneOpenBrace(args: seq<Named>)
    requires forall a :: a in args ==> Fine(a.given)
    ensures BraceDepth("{" + Entries(args, 0)) == 1 && BraceDepth("{" + Entries(args, 0) + "}") == 0
  {
    hide Entries, Fine;
    ScanBrace(SCAN_START);
    ScanAll(Scan(1, false, false), args, 0);
    ScanBrace(Scan(1, false, false));
    ScanConcat(SCAN_START, "{", Entries(args, 0));
    ScanConcat(SCAN_START, "{" + Entries(args, 0), "}");
  }

  // ----- the events

  function NamedEvents(a: Named): seq<Event> {
    var value := match a.given
                 case Str(text) => Event(ArgStringValue, text)
                 case Py(value) => Event(ArgValue, V.Render(value, V.Python));
    [Event(ArgOpen, []), Event(ArgName, a.name), value, Event(ArgClose, [])]
  }

  function AllEvents(args: seq<Named>): seq<Event> {
    if args == [] then [] else NamedEvents(args[0]) + AllEvents(args[1..])
  }

  lemma StepPython(st: State, value: V.Value)
    requires Taking(st) && V.Valid(value)
    ensures var e := Event(ArgValue, V.Render(value, V.Python));
            Defined(st, e) && Step(st, e) == WithArguments(st, CurrentCall(st).arguments + V.Render(value, V.Json), st.argCount)
  {
    hide Q.Normalize, V.Render, V.Valid;
    V.NormalizeConvertsValues(value);
  }

  lemma CloseNothing(st: State)
    requires Taking(st)
    ensures Defined(st, Event(ArgClose, [])) && Step(st, Event(ArgClose, [])) == st
  {
  }

  lemma EntryInTwo(args: string, comma: string, a: Named)
    ensures args + (comma + Entry(a)) == args + (comma + "\"" + Escape(Trim(a.name)) + "\":") + ValueText(a.given)
  {
    hide Escape, Trim, ValueText;
  }

  /** The events of one argument append exactly one entry. */
  lemma RunNamed(st: State, a: Named)
    requires Taking(st) && Fine(a.given)
    ensures DefinedRun(st, NamedEvents(a))
    ensures var text := CurrentCall(st).arguments + ((if st.argCount > 0 then "," else "") + Entry(a));
            Run(st, NamedEvents(a)) == WithArguments(st, text, st.argCount + 1)
  {
    hide Escape, Trim, Step, Entry, EntryText, V.Render, V.Valid, V.Keeps, Run, DefinedRun;
    match a.given
    case Str(text) =>
      RunArg(st, Arg(a.name, text));
      SameEntry(a, text);
    case Py(value) =>
      var comma := if st.argCount > 0 then "," else "";
      var text1 := CurrentCall(st).arguments + (comma + "\"" + Escape(Trim(a.name)) + "\":");
      var s2 := WithArguments(st, text1, st.argCount + 1);
      var s3 := WithArguments(st, text1 + V.Render(value, V.Json), st.argCount + 1);
      StepOpen(st);
      StepName(st, a.name);
      Rewritten(st, text1, text1 + V.Render(value, V.Json), st.argCount + 1);
      Rewritten(st, text1 + V.Render(value, V.Json), [], st.argCount + 1);
      StepPython(s2, value);
      CloseNothing(s3);
      RunFour(st, Event(ArgOpen, []), Event(ArgName, a.name), Event(ArgValue, V.Render(value, V.Python)), Event(ArgClose, []),
              st, s2, s3);
      EntryInTwo(CurrentCall(st).arguments, comma, a);
  }

  lemma SameEntry(a: Named, text: string)
    requires a.given == Str(text)
    ensures Entry(a) == EntryText(Arg(a.name, text)) && NamedEvents(a) == ArgEvents(Arg(a.name, text))
  {
    hide Escape, Trim;
  }

  lemma {:induction false} RunAll(st: State, args: seq<Named>)
    requires Taking(st) && forall a :: a in args ==> Fine(a.given)
    ensures DefinedRun(st, AllEvents(args))
    ensures Run(st, AllEvents(args))
            == WithArguments(st, CurrentCall(st).arguments + Entries(args, st.argCount), st.argCount + |args|)
    decreases args
  {
    hide Step, Entry, NamedEvents, Fine;
    if args == [] {
      assert CurrentCall(st).arguments + [] == CurrentCall(st).arguments;
      assert st.calls[|st.calls| - 1 := CurrentCall(st)] == st.calls;
    } else {
      RunNamed(st, args[0]);
      var next := Run(st, NamedEvents(args[0]));
      RunAll(next, args[1..]);
      RunConcat(st, NamedEvents(args[0]), AllEvents(args[1..]));
      var comma := if st.argCount > 0 then "," else "";
      assert CurrentCall(st).arguments + (comma + Entry(args[0])) + Entries(args[1..], st.argCount + 1)
          == CurrentCall(st).arguments + Entries(args, st.argCount);
    }
  }

  /**
    For every list of arguments, strings or Python values, the events of a call add one call, and a JSON reader reads its
    arguments as an object with these names, trimmed, and these values, in order.
   */
  lemma MixedCallRoundTrip(st: State, name: string, args: seq<Named>)
    requires Valid(st) && TrimEnd(name) != [] && forall a :: a in args ==> Fine(a.given)
    ensures var events := [Event(ToolOpen, []), Event(ToolName, name)] + (AllEvents(args) + [Event(ToolClose, [])]);
            && DefinedRun(st, events)
            && var after := Run(st, events);
            && |after.calls| == |st.calls| + 1 && after.calls[..|st.calls|] == st.calls
            && var call := after.calls[|st.calls|];
            && call.name == TrimEnd(name) && call.id == [] && BraceDepth(call.arguments) == 0
            && R.ReadValue(call.arguments) == Some(R.Read(R.Object(Members(args)), []))
  {
    hide Entries, TrimEnd, BraceDepth, Step, Fine, Members, R.ReadValue, AllEvents, Run, DefinedRun;
    var open, named, close := Event(ToolOpen, []), Event(ToolName, name), Event(ToolClose, []);
    StepOpenAndName(st, name);
    var s1 := Step(st, open);
    var s2 := Step(s1, named);
    RunAll(s2, args);
    var s3 := Run(s2, AllEvents(args));
    OneOpenBrace(args);
    StepCloseTool(s3);
    ReadsObject(args);
    RunOne(s3, close);
    RunConcat(s2, AllEvents(args), [close]);
    RunOne(s1, named);
    RunConcat(s1, [named], AllEvents(args) + [close]);
    RunOne(st, open);
    RunConcat(st, [open], [named] + (AllEvents(args) + [close]));
    assert [open, named] + (AllEvents(args) + [close]) == [open] + ([named] + (AllEvents(args) + [close]));
  }
}
