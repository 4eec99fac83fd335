/** Arguments that arrive before the tool name end up like arguments that arrive after it. */
module ToolOrder {
  import opened Basics
  import opened JsonText
  import opened ChatMessage
  import opened ToolMapper
  import Q = QuoteNormalizer
  import T = TaggedArgs

  /** What an event appends to the arguments when nothing else is done about them. */
  function Appended(st: State, e: Event): string {
    match e.tag
    case ArgStringValue => StringText(e.text, st.quotePending)
    case ArgValue => Q.Normalize(e.text)
    case ArgClose => if st.quotePending then "\"" else ""
    case _ => ""
  }

  predicate Inside(e: Event) {
    e.tag != ToolOpen && e.tag != ToolClose && e.tag != ToolName
  }

  /**
    Naming a pending call commutes with an event inside the call, except exactly with one that appends something to
    arguments that have not been started yet.
   */
  lemma NameCommutesIff(p: State, name: string, e: Event)
    requires Valid(p) && p.current == PendingTool && TrimEnd(name) != [] && Inside(e)
    ensures var n := Event(ToolName, name);
            Step(Step(p, n), e) == Step(Step(p, e), n) <==> p.buffer != [] || Appended(p, e) == []
  {
    hide TrimEnd, Trim, Escape, StringText, Q.Normalize, Unquote;
    var n := Event(ToolName, name);
    var named, after := Step(p, n), Step(p, e);
    assert named.current == LastTool && after.current == PendingTool;
    match e.tag {
      case ArgStringValue | ArgValue | ArgClose => AppendCommutesIff(p, name, e);
      case ArgName => ArgNameCommutes(p, name, e);
      case _ =>
    }
  }

  lemma AppendCommutesIff(p: State, name: string, e: Event)
    requires Valid(p) && p.current == PendingTool && TrimEnd(name) != []
    requires e.tag == ArgStringValue || e.tag == ArgValue || e.tag == ArgClose
    ensures var n := Event(ToolName, name);
            Step(Step(p, n), e) == Step(Step(p, e), n) <==> p.buffer != [] || Appended(p, e) == []
  {
    hide TrimEnd, Escape, StringText, Q.Normalize;
    var n := Event(ToolName, name);
    var text := Appended(p, e);
    var named, after := Step(p, n), Step(p, e);
    var start := if p.buffer != [] then p.buffer else "{";
    assert p.buffer + "" == p.buffer && start + "" == start;
    assert named == p.(calls := p.calls + [p.pending.value.(name := TrimEnd(name), arguments := start)], pending := None,
                       current := LastTool, buffer := []);
    assert after.buffer == p.buffer + text && after.pending == p.pending;
    var one, two := Step(named, e), Step(after, n);
    var last := |p.calls|;
    assert one.calls[last] == p.pending.value.(name := TrimEnd(name), arguments := start + text);
    assert two.calls[last] == p.pending.value.(name := TrimEnd(name),
                                               arguments := if p.buffer + text != [] then p.buffer + text else "{");
    if p.buffer == [] && text != [] {
      assert |start + text| == 1 + |p.buffer + text|;
    } else {
      assert one.calls == two.calls;
    }
  }

  lemma ArgNameCommutes(p: State, name: string, e: Event)
    requires Valid(p) && p.current == PendingTool && TrimEnd(name) != [] && e.tag == ArgName
    ensures var n := Event(ToolName, name);
            Step(Step(p, n), e) == Step(Step(p, e), n)
  {
    hide TrimEnd, Trim, Escape;
  }

  /** Every event of the block may come before the name: values are appended to arguments that have been started. */
  ghost predicate MayPrecedeName(p: State, block: seq<Event>)
    requires Valid(p)
    decreases block
  {
    block == []
    || (&& p.current == PendingTool && Inside(block[0])
        && (p.buffer != [] || Appended(p, block[0]) == [])
        && MayPrecedeName(Step(p, block[0]), block[1..]))
  }

  lemma InsideKeepsPending(p: State, e: Event)
    requires Valid(p) && p.current == PendingTool && Inside(e)
    ensures Step(p, e).current == PendingTool
  {
  }

  lemma {:induction false} BlockCommutes(p: State, name: string, block: seq<Event>)
    requires Valid(p) && p.current == PendingTool && TrimEnd(name) != [] && MayPrecedeName(p, block)
    ensures var n := Event(ToolName, name);
            && DefinedRun(p, block) && Run(p, block).current == PendingTool
            && DefinedRun(Step(p, n), block)
            && Run(Step(p, n), block) == Step(Run(p, block), n)
    decreases block
  {
    var n := Event(ToolName, name);
    NameMakesLast(p, name);
    hide Step, Appended;
    if block != [] {
      InsideKeepsPending(p, block[0]);
      NameCommutesIff(p, name, block[0]);
      BlockCommutes(Step(p, block[0]), name, block[1..]);
    }
  }

  lemma NameMakesLast(p: State, name: string)
    requires Valid(p) && p.current == PendingTool
    ensures Step(p, Event(ToolName, name)).current == LastTool
  {
  }

  /** A call gives the same result whether its name comes before or after a block of arguments. */
  lemma NameBeforeOrAfter(p: State, name: string, block: seq<Event>)
    requires Valid(p) && p.current == PendingTool && TrimEnd(name) != [] && MayPrecedeName(p, block)
    ensures var n := Event(ToolName, name);
            && DefinedRun(p, [n] + block) && DefinedRun(p, block + [n])
            && Run(p, [n] + block) == Run(p, block + [n])
  {
    var n := Event(ToolName, name);
    BlockCommutes(p, name, block);
    NameMakesLast(p, name);
    hide Step;
    T.RunOne(p, n);
    RunConcat(p, [n], block);
    T.RunOne(Run(p, block), n);
    RunConcat(p, block, [n]);
  }

  /** In particular a whole JSON object may be delivered before or after the name. */
  lemma ObjectBeforeOrAfterName(st: State, name: string, object_: string)
    requires Valid(st) && TrimEnd(name) != [] && TrimEnd(object_) != [] && TrimEnd(object_)[0] == '{'
    ensures var open, n, o := Event(ToolOpen, []), Event(ToolName, name), Event(ToolArgs, object_);
            var p := Step(st, open);
            && DefinedRun(p, [n] + [o]) && DefinedRun(p, [o] + [n])
            && Run(p, [n] + [o]) == Run(p, [o] + [n])
            && Run(p, [n] + [o]).calls == st.calls + [ToolCall(TrimEnd(name), TrimEnd(object_), [])]
  {
    var open, n, o := Event(ToolOpen, []), Event(ToolName, name), Event(ToolArgs, object_);
    var p := Step(st, open);
    assert MayPrecedeName(p, [o]) by {
      InsideKeepsPending(p, o);
      assert [o][1..] == [];
    }
    NameBeforeOrAfter(p, name, [o]);
    T.RunOne(p, n);
    T.RunOne(Step(p, n), o);
    RunConcat(p, [n], [o]);
  }

  /** The events of tagged arguments may precede the name as well. */
  lemma {:induction false} TaggedMayPrecedeName(p: State, args: seq<T.Arg>)
    requires Valid(p) && p.current == PendingTool && !p.quotePending
    ensures MayPrecedeName(p, T.AllArgEvents(args))
    decreases args
  {
    hide Trim, Escape, StringText;
    if args != [] {
      var e := T.ArgEvents(args[0]);
      var s1 := Step(p, e[0]);
      var s2 := Step(s1, e[1]);
      var s3 := Step(s2, e[2]);
      var s4 := Step(s3, e[3]);
      StartsArguments(s1, args[0]);
      TaggedMayPrecedeName(s4, args[1..]);
      var all, rest := T.AllArgEvents(args), T.AllArgEvents(args[1..]);
      assert all[0] == e[0] && all[1..][0] == e[1] && all[1..][1..][0] == e[2] && all[1..][1..][1..][0] == e[3];
      assert all[1..][1..][1..][1..] == rest;
      assert MayPrecedeName(s3, all[1..][1..][1..]);
      assert MayPrecedeName(s2, all[1..][1..]);
    }
  }

  lemma StartsArguments(p: State, arg: T.Arg)
    requires Valid(p) && p.current == PendingTool && !p.quotePending
    ensures var s2 := Step(p, Event(ArgName, arg.name));
            var s3 := Step(s2, Event(ArgStringValue, arg.value));
            var s4 := Step(s3, Event(ArgClose, []));
            && s2.current == s3.current == s4.current == PendingTool
            && s2.buffer != [] && s3.buffer != [] && !s4.quotePending
  {
  }
}
