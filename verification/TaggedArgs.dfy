/** Tool calls whose arguments arrive one by one, as names and string values. */
module TaggedArgs {
  import opened Basics
  import opened JsonText
  import opened ChatMessage
  import opened ToolMapper

  datatype Arg = Arg(name: string, value: string)

  // ----- reading a JSON object of strings back

  function ParseEntries(s: string): Option<seq<Arg>> {
    var key := ParseString(s);
    if key.None? || key.value.rest == [] || key.value.rest[0] != ':' then None
    else
      var value := ParseString(key.value.rest[1..]);
      if value.None? then None
      else
        var arg, rest := Arg(key.value.text, value.value.text), value.value.rest;
        if rest == "}" then Some([arg])
        else if rest != [] && rest[0] == ',' then
          var args := ParseEntries(rest[1..]);
          if args.Some? then Some([arg] + args.value) else None
        else None
  }

  /** The members of a JSON object whose values are strings, in order. */
  function ParseObject(s: string): Option<seq<Arg>> {
    if s == "{}" then Some([]) else if s != [] && s[0] == '{' then ParseEntries(s[1..]) else None
  }

  // ----- the text that is built

  function EntryText(arg: Arg): string {
    "\"" + Escape(Trim(arg.name)) + "\":" + "\"" + Escape(arg.value) + "\""
  }

  /** The entries after `count` earlier ones. */
  function EntriesText(args: seq<Arg>, count: nat): string {
    if args == [] then [] else (if count > 0 then "," else "") + EntryText(args[0]) + EntriesText(args[1..], count + 1)
  }

  function Trimmed(args: seq<Arg>): seq<Arg> {
    if args == [] then [] else [Arg(Trim(args[0].name), args[0].value)] + Trimmed(args[1..])
  }

  lemma ParseEntry(all: string, name: string, value: string, text: string, rest: string)
    requires ParseString(all) == Some(Parsed(name, ":" + value)) && ParseString(value) == Some(Parsed(text, rest))
    ensures rest == "}" ==> ParseEntries(all) == Some([Arg(name, text)])
    ensures rest != [] && rest[0] == ',' && ParseEntries(rest[1..]).Some?
            ==> ParseEntries(all) == Some([Arg(name, text)] + ParseEntries(rest[1..]).value)
  {
  }

  lemma SplitEntry(args: seq<Arg>, rest: string, value: string, all: string)
    requires args != [] && rest == EntriesText(args[1..], 1) + "}" && all == EntriesText(args, 0) + "}"
    requires value == "\"" + Escape(args[0].value) + ("\"" + rest)
    ensures all == "\"" + Escape(Trim(args[0].name)) + ("\"" + (":" + value))
  {
    hide Escape, Trim;
  }

  /** The entries decode to the arguments. */
  lemma {:induction false} ParseEntriesText(args: seq<Arg>, all: string)
    requires args != [] && all == EntriesText(args, 0) + "}"
    ensures ParseEntries(all) == Some(Trimmed(args))
    decreases args
  {
    hide Escape, Trim, ParseString, ParseEntries, EntryText;
    var rest := EntriesText(args[1..], 1) + "}";
    var value := "\"" + Escape(args[0].value) + ("\"" + rest);
    SplitEntry(args, rest, value, all);
    ParseEscaped(Trim(args[0].name), ":" + value, all);
    ParseEscaped(args[0].value, rest, value);
    ParseEntry(all, Trim(args[0].name), value, args[0].value, rest);
    if |args| == 1 {
      assert rest == "}";
      assert Trimmed(args) == [Arg(Trim(args[0].name), args[0].value)];
    } else {
      LaterEntries(args[1..], 1);
      assert rest == "," + (EntriesText(args[1..], 0) + "}");
      assert rest[1..] == EntriesText(args[1..], 0) + "}";
      ParseEntriesText(args[1..], rest[1..]);
    }
  }

  lemma LaterEntries(args: seq<Arg>, count: pos)
    requires args != []
    ensures EntriesText(args, count) == "," + EntriesText(args, 0)
  {
    hide EntryText;
    SameAfterFirst(args[1..], count + 1, 1);
  }

  lemma {:induction false} SameAfterFirst(args: seq<Arg>, a: pos, b: pos)
    ensures EntriesText(args, a) == EntriesText(args, b)
    decreases args
  {
    hide EntryText;
    if args != [] {
      SameAfterFirst(args[1..], a + 1, b + 1);
    }
  }

  // ----- braces

  lemma ScanEntry(st: Scan, arg: Arg)
    requires !st.inString && !st.escaped
    ensures ScanText(st, EntryText(arg)) == st
  {
    hide Escape, Trim, EscapeChar;
    var name, value := Escape(Trim(arg.name)), Escape(arg.value);
    var quoted := st.(inString := true);
    ScanQuote(st);
    ScanQuote(quoted);
    ScanEscaped(quoted, Trim(arg.name));
    ScanEscaped(quoted, arg.value);
    ScanPlain(st, ":");
    assert EntryText(arg) == "\"" + (name + ("\"" + (":" + ("\"" + (value + "\"")))));
    ScanConcat(st, "\"", name + ("\"" + (":" + ("\"" + (value + "\"")))));
    ScanConcat(quoted, name, "\"" + (":" + ("\"" + (value + "\""))));
    ScanConcat(quoted, "\"", ":" + ("\"" + (value + "\"")));
    ScanConcat(st, ":", "\"" + (value + "\""));
    ScanConcat(st, "\"", value + "\"");
    ScanConcat(quoted, value, "\"");
  }

  lemma ScanQuote(st: Scan)
    requires !st.escaped
    ensures ScanText(st, "\"") == st.(inString := !st.inString)
  {
  }

  lemma {:induction false} ScanEntries(st: Scan, args: seq<Arg>, count: nat)
    requires !st.inString && !st.escaped
    ensures ScanText(st, EntriesText(args, count)) == st
    decreases args
  {
    hide EntryText;
    if args != [] {
      var comma := if count > 0 then "," else "";
      ScanPlain(st, comma);
      ScanEntry(st, args[0]);
      ScanEntries(st, args[1..], count + 1);
      ScanConcat(st, comma, EntryText(args[0]));
      ScanConcat(st, comma + EntryText(args[0]), EntriesText(args[1..], count + 1));
    }
  }

  lemma ObjectDepth(args: seq<Arg>)
    ensures BraceDepth("{" + EntriesText(args, 0)) == 1
  {
    assert "{"[1..] == [];
    assert ScanText(SCAN_START, "{") == Scan(1, false, false);
    ScanEntries(Scan(1, false, false), args, 0);
    ScanConcat(SCAN_START, "{", EntriesText(args, 0));
  }

  // ----- the events

  function ArgEvents(arg: Arg): seq<Event> {
    [Event(ArgOpen, []), Event(ArgName, arg.name), Event(ArgStringValue, arg.value), Event(ArgClose, [])]
  }

  function AllArgEvents(args: seq<Arg>): seq<Event> {
    if args == [] then [] else ArgEvents(args[0]) + AllArgEvents(args[1..])
  }

  function CallEvents(name: string, args: seq<Arg>): seq<Event> {
    [Event(ToolOpen, []), Event(ToolName, name)] + (AllArgEvents(args) + [Event(ToolClose, [])])
  }

  lemma RunOne(st: State, e: Event)
    requires Valid(st) && Defined(st, e)
    ensures DefinedRun(st, [e]) && Run(st, [e]) == Step(st, e)
  {
  }

  /** A named last call that takes arguments. */
  ghost predicate Taking(st: State) {
    && Valid(st) && st.current == LastTool && !st.quotePending
    && CurrentCall(st).name != [] && CurrentCall(st).arguments != []
  }

  function WithArguments(st: State, text: string, count: nat): State
    requires st.calls != []
  {
    var last := |st.calls| - 1;
    st.(calls := st.calls[last := st.calls[last].(arguments := text)], argCount := count)
  }

  lemma StepName(st: State, name: string)
    requires Taking(st)
    ensures var entry := (if st.argCount > 0 then "," else "") + "\"" + Escape(Trim(name)) + "\":";
            && Defined(st, Event(ArgName, name))
            && Step(st, Event(ArgName, name)) == WithArguments(st, CurrentCall(st).arguments + entry, st.argCount + 1)
            && Taking(Step(st, Event(ArgName, name)))
  {
  }

  lemma StepValue(st: State, value: string)
    requires Taking(st)
    ensures Defined(st, Event(ArgStringValue, value))
    ensures Step(st, Event(ArgStringValue, value))
            == WithArguments(st, CurrentCall(st).arguments + ("\"" + Escape(value)), st.argCount).(quotePending := true)
  {
  }

  lemma StepClose(st: State)
    requires Taking(st)
    ensures var open := st.(quotePending := true);
            && Valid(open) && Defined(open, Event(ArgClose, []))
            && Step(open, Event(ArgClose, [])) == WithArguments(st, CurrentCall(st).arguments + "\"", st.argCount)
  {
  }

  lemma RunFour(st: State, a: Event, b: Event, c: Event, d: Event, s1: State, s2: State, s3: State)
    requires Valid(st) && Defined(st, a) && Step(st, a) == s1
    requires Defined(s1, b) && Step(s1, b) == s2
    requires Defined(s2, c) && Step(s2, c) == s3 && Defined(s3, d)
    ensures DefinedRun(st, [a, b, c, d]) && Run(st, [a, b, c, d]) == Step(s3, d)
  {
    hide Step;
    RunOne(s3, d);
    RunOne(s2, c);
    RunConcat(s2, [c], [d]);
    RunOne(s1, b);
    RunConcat(s1, [b], [c] + [d]);
    RunOne(st, a);
    RunConcat(st, [a], [b] + ([c] + [d]));
    assert [a, b, c, d] == [a] + ([b] + ([c] + [d]));
  }

  lemma RunArg(st: State, arg: Arg)
    requires Taking(st)
    ensures DefinedRun(st, ArgEvents(arg))
    ensures var text := CurrentCall(st).arguments + ((if st.argCount > 0 then "," else "") + EntryText(arg));
            Run(st, ArgEvents(arg)) == WithArguments(st, text, st.argCount + 1)
  {
    hide Escape, Trim, Step, EntryText;
    var comma := if st.argCount > 0 then "," else "";
    var text1 := CurrentCall(st).arguments + (comma + "\"" + Escape(Trim(arg.name)) + "\":");
    var text2 := text1 + ("\"" + Escape(arg.value));
    var s2, s3 := WithArguments(st, text1, st.argCount + 1), WithArguments(st, text2, st.argCount + 1);
    StepOpen(st);
    StepName(st, arg.name);
    StepValue(s2, arg.value);
    Rewritten(st, text1, text2, st.argCount + 1);
    StepClose(s3);
    Rewritten(st, text2, text2 + "\"", st.argCount + 1);
    RunFour(st, Event(ArgOpen, []), Event(ArgName, arg.name), Event(ArgStringValue, arg.value), Event(ArgClose, []),
            st, s2, s3.(quotePending := true));
    EntryInOne(CurrentCall(st).arguments, comma, arg);
  }

  /** Only the last arguments that were put into the call matter. */
  lemma Rewritten(st: State, text: string, text': string, count: nat)
    requires Taking(st) && text != []
    ensures Taking(WithArguments(st, text, count)) && CurrentCall(WithArguments(st, text, count)).arguments == text
    ensures WithArguments(WithArguments(st, text, count), text', count) == WithArguments(st, text', count)
  {
  }

  lemma StepOpen(st: State)
    requires Taking(st)
    ensures Defined(st, Event(ArgOpen, [])) && Step(st, Event(ArgOpen, [])) == st
  {
  }

  lemma EntryInOne(args: string, comma: string, arg: Arg)
    ensures args + (comma + EntryText(arg)) ==
            args + (comma + "\"" + Escape(Trim(arg.name)) + "\":") + ("\"" + Escape(arg.value)) + "\""
  {
    hide Escape, Trim;
  }

  lemma {:induction false} RunArgs(st: State, args: seq<Arg>)
    requires Taking(st)
    ensures DefinedRun(st, AllArgEvents(args))
    ensures Run(st, AllArgEvents(args))
            == WithArguments(st, CurrentCall(st).arguments + EntriesText(args, st.argCount), st.argCount + |args|)
    decreases args
  {
    hide Step, EntryText, ArgEvents;
    if args == [] {
      assert CurrentCall(st).arguments + [] == CurrentCall(st).arguments;
      assert st.calls[|st.calls| - 1 := CurrentCall(st)] == st.calls;
    } else {
      RunArg(st, args[0]);
      var next := Run(st, ArgEvents(args[0]));
      RunArgs(next, args[1..]);
      RunConcat(st, ArgEvents(args[0]), AllArgEvents(args[1..]));
      var comma := if st.argCount > 0 then "," else "";
      assert CurrentCall(st).arguments + (comma + EntryText(args[0])) + EntriesText(args[1..], st.argCount + 1)
          == CurrentCall(st).arguments + EntriesText(args, st.argCount);
    }
  }

  /** The events of one call add one call, whose arguments are a closed JSON object that decodes to the given list. */
  lemma TaggedCallRoundTrip(st: State, name: string, args: seq<Arg>)
    requires Valid(st) && TrimEnd(name) != []
    ensures DefinedRun(st, CallEvents(name, args))
    ensures var after := Run(st, CallEvents(name, args));
            var text := "{" + EntriesText(args, 0) + "}";
            && after.calls == st.calls + [ToolCall(TrimEnd(name), text, [])]
            && after.reasoning == st.reasoning && after.content == st.content
            && BraceDepth(text) == 0
            && ParseObject(text) == Some(Trimmed(args))
  {
    hide EntriesText, ParseObject, TrimEnd, BraceDepth, Step;
    var open, named, close := Event(ToolOpen, []), Event(ToolName, name), Event(ToolClose, []);
    StepOpenAndName(st, name);
    var s1 := Step(st, open);
    var s2 := Step(s1, named);
    RunArgs(s2, args);
    var s3 := Run(s2, AllArgEvents(args));
    ObjectDepth(args);
    StepCloseTool(s3);
    ClosedObject(args);
    RunOne(s3, close);
    RunConcat(s2, AllArgEvents(args), [close]);
    RunOne(s1, named);
    RunConcat(s1, [named], AllArgEvents(args) + [close]);
    RunOne(st, open);
    RunConcat(st, [open], [named] + (AllArgEvents(args) + [close]));
    assert CallEvents(name, args) == [open] + ([named] + (AllArgEvents(args) + [close]));
  }

  lemma StepOpenAndName(st: State, name: string)
    requires Valid(st) && TrimEnd(name) != []
    ensures Defined(st, Event(ToolOpen, []))
    ensures var s1 := Step(st, Event(ToolOpen, []));
            && Defined(s1, Event(ToolName, name))
            && var s2 := Step(s1, Event(ToolName, name));
            Taking(s2) && s2.calls == st.calls + [ToolCall(TrimEnd(name), "{", [])]
            && s2.reasoning == st.reasoning && s2.content == st.content && s2.argCount == 0
  {
  }

  lemma StepCloseTool(st: State)
    requires Taking(st) && BraceDepth(CurrentCall(st).arguments) == 1
    ensures Defined(st, Event(ToolClose, []))
    ensures Step(st, Event(ToolClose, [])) == WithArguments(st, CurrentCall(st).arguments + "}", st.argCount)
  {
    hide BraceDepth;
    assert CurrentCall(st).arguments + "" == CurrentCall(st).arguments && Braces(1) == "}";
  }

  lemma ClosedObject(args: seq<Arg>)
    ensures BraceDepth("{" + EntriesText(args, 0) + "}") == 0
    ensures ParseObject("{" + EntriesText(args, 0) + "}") == Some(Trimmed(args))
  {
    var inner := "{" + EntriesText(args, 0);
    ObjectDepth(args);
    assert ScanText(SCAN_START, "{") == Scan(1, false, false) by {
      assert "{"[1..] == [];
    }
    ScanEntries(Scan(1, false, false), args, 0);
    ScanConcat(SCAN_START, "{", EntriesText(args, 0));
    ClosingIff(inner);
    assert Braces(1) == "}";
    if args == [] {
      assert inner + "}" == "{}";
    } else {
      var all := EntriesText(args, 0) + "}";
      assert inner + "}" == "{" + all;
      assert (inner + "}")[1..] == all;
      ParseEntriesText(args, all);
      assert EntriesText(args, 0) != [];
    }
  }
}
