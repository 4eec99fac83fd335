/** Tool calls that are still being written: their trees are cut as `Streaming` allows, whatever has arrived of them. */
module StreamedCalls {
  import opened JsonText
  import opened ChatMessage
  import opened ToolMapper
  import opened Streaming

  /** The rule of a call around its opening, which holds the name, and its arguments. */
  function Call(text: string, open: string, name: string, args: Node): Node {
    Node(Other, text, [Node(Other, text, [Node(ToolOpen, open, [Node(ToolName, name, [])]), args])])
  }

  /** Arguments as one JSON object, with the nodes of the JSON rules inside. */
  function JsonArgs(object_: string, inside: seq<Node>): Node {
    Node(ToolArgs, object_, inside)
  }

  /** A tagged string argument around its name and its value. */
  function StringArg(text: string, key: string, value: string): Node {
    Node(Other, text, [Node(ArgOpen, key, [Node(ArgName, key, [])]), Node(ArgStringValue, value, [])])
  }

  /** Arguments as tagged nodes. */
  function TaggedArgs(text: string, args: seq<Node>): Node {
    Node(ToolArgs, text, args)
  }

  ghost predicate OnlyRules(nodes: seq<Node>) {
    forall e :: e in PreOrderAll(nodes) ==> e.tag == Other
  }

  /** The state in which the arguments of a first call are visited. */
  function Opened(name: string): State {
    START.(calls := [ToolCall(TrimEnd(name), "{", [])], current := LastTool)
  }

  lemma OpeningRuns(open: string, name: string)
    requires TrimEnd(name) != []
    ensures var opening := PreOrder(Node(ToolOpen, open, [Node(ToolName, name, [])]));
            OrderlyRun(START, opening) && DefinedRun(START, opening) && Run(START, opening) == Opened(name)
  {
    hide TrimEnd;
    var events := [Event(ToolOpen, open), Event(ToolName, name)];
    assert PreOrderAll([]) == [] && [Node(ToolName, name, [])][1..] == [];
    assert PreOrderAll([Node(ToolName, name, [])]) == [Event(ToolName, name)];
    assert PreOrder(Node(ToolOpen, open, [Node(ToolName, name, [])])) == events;
    var pending := Step(START, events[0]);
    assert events[1..] == [events[1]] && events[1..][1..] == [];
    assert Orderly(pending, events[1]) && Step(pending, events[1]) == Opened(name);
    assert OrderlyRun(Opened(name), []) && DefinedRun(Opened(name), []) && Run(Opened(name), []) == Opened(name);
    assert OrderlyRun(pending, events[1..]) && DefinedRun(pending, events[1..]) && Run(pending, events[1..]) == Opened(name);
  }

  /** A call is in order and cut as allowed if its arguments are. */
  lemma CallTruncates(textBefore: string, text: string, open: string, name: string, argsBefore: Node, args: Node)
    requires TrimEnd(name) != [] && OrderlyRun(Opened(name), PreOrder(args)) && Truncates(Opened(name), argsBefore, args)
    ensures OrderlyRun(START, PreOrderAll([Call(text, open, name, args)]))
    ensures TruncatesAll(START, [Call(textBefore, open, name, argsBefore)], [Call(text, open, name, args)])
  {
    hide TrimEnd, Truncates, TruncatesAll, OrderlyRun, DefinedRun, Run, Step, Orderly;
    var opening := Node(ToolOpen, open, [Node(ToolName, name, [])]);
    OpeningRuns(open, name);
    OrderlyConcat(START, PreOrder(opening), PreOrder(args));
    OneNode(args);
    assert [opening, args][1..] == [args] && [opening, argsBefore][1..] == [argsBefore];
    assert PreOrderAll([opening, args]) == PreOrder(opening) + PreOrder(args);
    OneTruncates(Opened(name), argsBefore, args);
    TruncatesNext(START, [opening, argsBefore], [opening, args]);
    Enclosed(textBefore, text, [opening, argsBefore], [opening, args]);
    Enclosed(textBefore, text, [Node(Other, textBefore, [opening, argsBefore])], [Node(Other, text, [opening, args])]);
  }

  lemma OneNode(node: Node)
    ensures PreOrderAll([node]) == PreOrder(node)
  {
    assert [node][1..] == [] && PreOrderAll([]) == [];
  }

  lemma OneTruncates(st: State, early: Node, late: Node)
    requires Valid(st) && Truncates(st, early, late)
    ensures TruncatesAll(st, [early], [late])
  {
    hide Truncates;
  }

  lemma TruncatesNext(st: State, early: seq<Node>, late: seq<Node>)
    requires Valid(st) && |early| > 1 && late != [] && early[0] == late[0] && DefinedRun(st, PreOrder(late[0]))
    requires TruncatesAll(Run(st, PreOrder(late[0])), early[1..], late[1..])
    ensures TruncatesAll(st, early, late)
  {
    hide Truncates, Run, DefinedRun;
  }

  /** Nodes of the grammar's rules do nothing, so their texts may grow. */
  lemma OtherTruncates(st: State, textBefore: string, text: string, early: seq<Node>, late: seq<Node>)
    requires Valid(st) && TruncatesAll(st, early, late)
    ensures Truncates(st, Node(Other, textBefore, early), Node(Other, text, late))
  {
  }

  lemma Enclosed(textBefore: string, text: string, early: seq<Node>, late: seq<Node>)
    requires OrderlyRun(START, PreOrderAll(late)) && TruncatesAll(START, early, late)
    ensures var a, b := Node(Other, textBefore, early), Node(Other, text, late);
            && OrderlyRun(START, PreOrderAll([b]))
            && TruncatesAll(START, [a], [b])
  {
    var a, b := Node(Other, textBefore, early), Node(Other, text, late);
    OneNode(b);
    assert PreOrder(b)[1..] == PreOrderAll(late);
    OtherTruncates(START, textBefore, text, early, late);
    OneTruncates(START, a, b);
  }

  /** However much of a JSON object has arrived, the call is in order, and cut as allowed. */
  lemma JsonCallTruncates(textBefore: string, text: string, open: string, name: string,
                          objectBefore: string, object_: string, insideBefore: seq<Node>, inside: seq<Node>)
    requires TrimEnd(name) != [] && objectBefore <= object_ && TrimEnd(object_) != [] && TrimEnd(object_)[0] == '{'
    requires OnlyRules(insideBefore) && OnlyRules(inside)
    ensures OrderlyRun(START, PreOrderAll([Call(text, open, name, JsonArgs(object_, inside))]))
    ensures TruncatesAll(START, [Call(textBefore, open, name, JsonArgs(objectBefore, insideBefore))],
                         [Call(text, open, name, JsonArgs(object_, inside))])
  {
    hide TrimEnd;
    var st, e := Opened(name), Event(ToolArgs, object_);
    assert Orderly(st, e);
    IdleRun(Step(st, e), PreOrderAll(inside));
    assert PreOrder(JsonArgs(object_, inside))[1..] == PreOrderAll(inside);
    assert OrderlyRun(st, PreOrder(JsonArgs(object_, inside)));
    assert Truncates(st, JsonArgs(objectBefore, insideBefore), JsonArgs(object_, inside));
    CallTruncates(textBefore, text, open, name, JsonArgs(objectBefore, insideBefore), JsonArgs(object_, inside));
  }

  lemma Associative(a: seq<Event>, b: seq<Event>, c: seq<Event>)
    ensures a + (b + c) == (a + b) + c
  {
  }

  lemma {:induction false} PreOrderConcat(a: seq<Node>, b: seq<Node>)
    ensures PreOrderAll(a + b) == PreOrderAll(a) + PreOrderAll(b)
  {
    hide PreOrder;
    if a == [] {
      assert a + b == b;
    } else {
      PreOrderConcat(a[1..], b);
      assert (a + b)[0] == a[0] && (a + b)[1..] == a[1..] + b;
      Associative(PreOrder(a[0]), PreOrderAll(a[1..]), PreOrderAll(b));
    }
  }

  lemma RunNothing(st: State)
    requires Valid(st)
    ensures DefinedRun(st, []) && Run(st, []) == st
  {
  }

  /** Complete nodes may come first. */
  lemma {:induction false} TruncatesAfter(st: State, done: seq<Node>, early: seq<Node>, late: seq<Node>)
    requires Valid(st) && DefinedRun(st, PreOrderAll(done)) && early != []
    requires TruncatesAll(Run(st, PreOrderAll(done)), early, late)
    ensures TruncatesAll(st, done + early, done + late)
    decreases done
  {
    hide Truncates, TruncatesAll, Run, DefinedRun, PreOrder;
    if done == [] {
      RunNothing(st);
      assert done + early == early && done + late == late;
    } else {
      RunConcat(st, PreOrder(done[0]), PreOrderAll(done[1..]));
      TruncatesAfter(Run(st, PreOrder(done[0])), done[1..], early, late);
      assert (done + early)[1..] == done[1..] + early && (done + late)[1..] == done[1..] + late;
      TruncatesNext(st, done + early, done + late);
    }
  }

  lemma StringArgEvents(text: string, key: string, value: string)
    ensures PreOrder(StringArg(text, key, value))
            == [Event(Other, text), Event(ArgOpen, key), Event(ArgName, key), Event(ArgStringValue, value)]
  {
    var open, last := Node(ArgOpen, key, [Node(ArgName, key, [])]), Node(ArgStringValue, value, []);
    OneNode(Node(ArgName, key, []));
    OneNode(last);
    assert [open, last][1..] == [last];
    assert PreOrderAll([open, last]) == PreOrder(open) + PreOrder(last);
  }

  lemma TwoEvents(st: State, a: Event, b: Event)
    requires Valid(st) && Defined(st, a) && Defined(Step(st, a), b)
    ensures DefinedRun(st, [a, b]) && Run(st, [a, b]) == Step(Step(st, a), b)
  {
    hide Step;
    assert [a, b][1..] == [b] && [b][1..] == [];
    RunNothing(Step(Step(st, a), b));
    assert Run(Step(st, a), [b]) == Step(Step(st, a), b);
  }

  lemma FourInOrder(st: State, a: Event, b: Event, c: Event, d: Event)
    requires Valid(st) && Orderly(st, a)
    requires var s1 := Step(st, a);
             Orderly(s1, b) && Orderly(Step(s1, b), c) && Orderly(Step(Step(s1, b), c), d)
    ensures OrderlyRun(st, [a, b, c, d])
  {
    hide Step;
    assert [a, b, c, d][1..] == [b, c, d] && [b, c, d][1..] == [c, d] && [c, d][1..] == [d] && [d][1..] == [];
    var s3 := Step(Step(Step(st, a), b), c);
    assert OrderlyRun(s3, [d]) by {
      assert OrderlyRun(Step(s3, d), []);
    }
    assert OrderlyRun(Step(Step(st, a), b), [c, d]);
    assert OrderlyRun(Step(st, a), [b, c, d]);
  }

  /** The state between the name and the value of an argument. */
  function KeyGiven(st: State, key: string): (named: State)
    requires Valid(st) && st.current == LastTool
    ensures Valid(named) && named.current == LastTool && !named.quotePending
  {
    Step(st.(quotePending := false), Event(ArgName, key))
  }

  lemma KeyRuns(st: State, key: string)
    requires Valid(st) && st.current == LastTool
    ensures var open := PreOrder(Node(ArgOpen, key, [Node(ArgName, key, [])]));
            DefinedRun(st, open) && Run(st, open) == KeyGiven(st, key)
  {
    hide Trim, Escape, Run, DefinedRun;
    OneNode(Node(ArgName, key, []));
    assert PreOrder(Node(ArgOpen, key, [Node(ArgName, key, [])])) == [Event(ArgOpen, key), Event(ArgName, key)];
    TwoEvents(st, Event(ArgOpen, key), Event(ArgName, key));
  }

  lemma ValueTruncates(st: State, valueBefore: string, value: string)
    requires Valid(st) && st.current == LastTool && !st.quotePending && valueBefore <= value
    ensures Truncates(st, Node(ArgStringValue, valueBefore, []), Node(ArgStringValue, value, []))
  {
    assert PreOrderAll([]) == [];
  }

  /** A string argument is in order wherever a call takes arguments. */
  lemma StringArgOrderly(st: State, text: string, key: string, value: string)
    requires Valid(st) && st.current == LastTool
    ensures OrderlyRun(st, PreOrder(StringArg(text, key, value)))
  {
    hide Trim, Escape, OrderlyRun;
    StringArgEvents(text, key, value);
    assert Orderly(KeyGiven(st, key), Event(ArgStringValue, value));
    FourInOrder(st, Event(Other, text), Event(ArgOpen, key), Event(ArgName, key), Event(ArgStringValue, value));
  }

  /** One string argument, cut inside its value. */
  lemma StringArgTruncates(st: State, textBefore: string, text: string, key: string, valueBefore: string, value: string)
    requires Valid(st) && st.current == LastTool && valueBefore <= value
    ensures Truncates(st, StringArg(textBefore, key, valueBefore), StringArg(text, key, value))
  {
    hide KeyGiven, Run, DefinedRun, PreOrder;
    var open := Node(ArgOpen, key, [Node(ArgName, key, [])]);
    var before, after := Node(ArgStringValue, valueBefore, []), Node(ArgStringValue, value, []);
    KeyRuns(st, key);
    ValueTruncates(KeyGiven(st, key), valueBefore, value);
    OneTruncates(KeyGiven(st, key), before, after);
    assert [open, before][1..] == [before] && [open, after][1..] == [after];
    TruncatesNext(st, [open, before], [open, after]);
    OtherTruncates(st, textBefore, text, [open, before], [open, after]);
  }

  /**
    However many string arguments are complete, and however much of the next value has arrived, the call is in order, and
    cut as allowed.
   */
  lemma TaggedCallTruncates(textBefore: string, text: string, open: string, name: string, argsBefore: string, args: string,
                            done: seq<Node>, argBefore: string, arg: string, key: string, valueBefore: string, value: string)
    requires TrimEnd(name) != [] && valueBefore <= value
    requires Essence(Event(ToolArgs, argsBefore)) == Essence(Event(ToolArgs, args)) == []
    requires OrderlyRun(Opened(name), PreOrderAll(done)) && DefinedRun(Opened(name), PreOrderAll(done))
    requires Run(Opened(name), PreOrderAll(done)).current == LastTool
    ensures var early, late := done + [StringArg(argBefore, key, valueBefore)], done + [StringArg(arg, key, value)];
            && OrderlyRun(START, PreOrderAll([Call(text, open, name, TaggedArgs(args, late))]))
            && TruncatesAll(START, [Call(textBefore, open, name, TaggedArgs(argsBefore, early))],
                            [Call(text, open, name, TaggedArgs(args, late))])
  {
    hide TrimEnd, Truncates, TruncatesAll, OrderlyRun, Run, DefinedRun;
    var st := Opened(name);
    var early, late := done + [StringArg(argBefore, key, valueBefore)], done + [StringArg(arg, key, value)];
    var after := Run(st, PreOrderAll(done));
    StringArgOrderly(after, arg, key, value);
    StringArgTruncates(after, argBefore, arg, key, valueBefore, value);
    OneTruncates(after, StringArg(argBefore, key, valueBefore), StringArg(arg, key, value));
    OneNode(StringArg(arg, key, value));
    TruncatesAfter(st, done, [StringArg(argBefore, key, valueBefore)], [StringArg(arg, key, value)]);
    PreOrderConcat(done, [StringArg(arg, key, value)]);
    OrderlyConcat(st, PreOrderAll(done), PreOrder(StringArg(arg, key, value)));
    ArgsEnclose(st, argsBefore, args, early, late);
    CallTruncates(textBefore, text, open, name, TaggedArgs(argsBefore, early), TaggedArgs(args, late));
  }

  lemma ArgsEnclose(st: State, textBefore: string, text: string, early: seq<Node>, late: seq<Node>)
    requires Valid(st) && st.current == LastTool && Essence(Event(ToolArgs, textBefore)) == Essence(Event(ToolArgs, text)) == []
    requires OrderlyRun(st, PreOrderAll(late)) && TruncatesAll(st, early, late)
    ensures OrderlyRun(st, PreOrder(TaggedArgs(text, late)))
    ensures Truncates(st, TaggedArgs(textBefore, early), TaggedArgs(text, late))
  {
    hide TrimEnd;
    assert PreOrder(TaggedArgs(text, late))[1..] == PreOrderAll(late);
    assert Step(st, Event(ToolArgs, text)) == st;
  }
}
