/** Building a chat message with tool calls from the events of a syntax tree visited in pre-order. */
module ToolMapper {
  import opened Basics
  import opened JsonText
  import opened ChatMessage
  import Q = QuoteNormalizer

  datatype Tag =
    | Reasoning | Content
    | ToolOpen | ToolClose | ToolName | ToolId | ToolArgs
    | ArgOpen | ArgClose | ArgName | ArgValue | ArgStringValue
    | Other

  datatype Event = Event(tag: Tag, text: string)

  /** What the mapper's pointer to the current tool call points to; after an unnamed call was dropped, to nothing. */
  datatype Current = NoTool | PendingTool | LastTool | DroppedTool

  datatype State = State(reasoning: string, content: string, calls: seq<ToolCall>, pending: Option<ToolCall>, current: Current,
                         argCount: nat, quotePending: bool, buffer: string)

  const START := State([], [], [], None, NoTool, 0, false, [])

  // ----- text helpers

  predicate Space(c: char) {
    c == ' ' || '\t' <= c <= '\r'
  }

  function TrimEnd(s: string): (t: string)
    ensures t <= s && (t != [] ==> !Space(t[|t| - 1])) && forall k :: |t| <= k < |s| ==> Space(s[k])
  {
    if s != [] && Space(s[|s| - 1]) then TrimEnd(s[..|s| - 1]) else s
  }

  /** At most one leading and all trailing white space is removed. */
  function Trim(s: string): string {
    TrimEnd(if s != [] && Space(s[0]) then s[1..] else s)
  }

  function Unquote(s: string): string {
    if |s| >= 2 && s[0] == '\"' && s[|s| - 1] == '\"' then s[1..|s| - 1] else s
  }

  /** White space is what the C locale takes for it; at most one of it is removed in front, all of it at the end. */
  lemma TrimMeaning(s: string)
    ensures forall c :: Space(c) <==> c in [' ', '\t', '\n', '\U{B}', '\U{C}', '\r']
    ensures var lead := if s != [] && Space(s[0]) then 1 else 0;
            && lead + |Trim(s)| <= |s| && s[lead..lead + |Trim(s)|] == Trim(s)
            && (forall k :: lead + |Trim(s)| <= k < |s| ==> Space(s[k]))
            && (Trim(s) != [] ==> !Space(Trim(s)[|Trim(s)| - 1]))
  {
    hide TrimEnd;
  }

  /** One pair of quotes around the whole text is removed. */
  lemma UnquoteMeaning(s: string)
    ensures Unquote("\"" + s + "\"") == s
    ensures s == [] || s[0] != '\"' || s[|s| - 1] != '\"' || |s| == 1 ==> Unquote(s) == s
  {
    var quoted := "\"" + s + "\"";
    assert quoted[1..|quoted| - 1] == s;
  }

  /** White space that does not count as reasoning. */
  predicate Blank(s: string) {
    forall c :: c in s ==> c == ' ' || c == '\n' || c == '\r' || c == '\t'
  }

  lemma BlankMeaning(s: string)
    ensures Blank(s) <==> forall c :: c in s ==> c in [' ', '\n', '\r', '\t']
  {
  }

  // ----- one event

  /** The pointer and what it points to agree; a pending call has no name, so its arguments are still in the buffer. */
  ghost predicate Valid(st: State) {
    && (st.pending.Some? <==> st.current == PendingTool)
    && (st.pending.Some? ==> st.pending.value.name == [] && st.pending.value.arguments == [])
    && (st.current == LastTool ==> st.calls != [])
  }

  /** The event does not use a call that was dropped. */
  predicate Defined(st: State, e: Event) {
    st.current == DroppedTool ==> e.tag in {Reasoning, Content, ToolOpen, ArgOpen, Other}
  }

  function CurrentCall(st: State): ToolCall
    requires Valid(st) && (st.current == PendingTool || st.current == LastTool)
  {
    if st.current == PendingTool then st.pending.value else st.calls[|st.calls| - 1]
  }

  function SetCurrent(st: State, call: ToolCall): State
    requires Valid(st) && (st.current == PendingTool || st.current == LastTool)
  {
    if st.current == PendingTool then st.(pending := Some(call)) else st.(calls := st.calls[|st.calls| - 1 := call])
  }

  /** Arguments go to the call once it has a name, and to the buffer before. */
  function Target(st: State): string
    requires Valid(st) && (st.current == PendingTool || st.current == LastTool)
  {
    if CurrentCall(st).name != [] then CurrentCall(st).arguments else st.buffer
  }

  function SetTarget(st: State, text: string): State
    requires Valid(st) && (st.current == PendingTool || st.current == LastTool)
  {
    if CurrentCall(st).name != [] then SetCurrent(st, CurrentCall(st).(arguments := text)) else st.(buffer := text)
  }

  function Step(st: State, e: Event): (st': State)
    requires Valid(st) && Defined(st, e)
    ensures Valid(st')
  {
    match e.tag
    case Reasoning => st.(reasoning := st.reasoning + e.text)
    case Content => st.(content := st.content + e.text)
    case ToolOpen => st.(pending := Some(EMPTY_CALL), current := PendingTool, argCount := 0, quotePending := false, buffer := [])
    case ArgOpen => st.(quotePending := false)
    case Other => st
    case _ => if st.current == NoTool then st else ToolStep(st, e)
  }

  /** The opening quote is added once, and by every empty value. */
  function StringText(text: string, quotePending: bool): string {
    (if text == [] || !quotePending then "\"" else "") + Escape(text)
  }

  function ToolStep(st: State, e: Event): (st': State)
    requires Valid(st) && (st.current == PendingTool || st.current == LastTool)
    ensures Valid(st')
  {
    var call := CurrentCall(st);
    match e.tag
    case ToolId => SetCurrent(st, call.(id := Unquote(TrimEnd(e.text))))
    case ToolName =>
      var args := if st.buffer != [] then st.buffer else if call.arguments == [] then "{" else call.arguments;
      var named := call.(name := TrimEnd(e.text), arguments := args);
      if st.current == PendingTool then
        st.(calls := st.calls + [named], pending := None, current := LastTool, buffer := [])
      else SetCurrent(st, named).(buffer := [])
    case ToolArgs =>
      var text := TrimEnd(e.text);
      if text != [] && text[0] == '{' then SetTarget(st, text) else st
    case ArgName =>
      var entry := (if st.argCount > 0 then "," else "") + "\"" + Escape(Trim(e.text)) + "\":";
      SetTarget(st, (if Target(st) == [] then "{" else Target(st)) + entry).(argCount := st.argCount + 1)
    case ArgStringValue =>
      SetTarget(st, Target(st) + StringText(e.text, st.quotePending)).(quotePending := true)
    case ArgValue => SetTarget(st, Target(st) + Q.Normalize(e.text))
    case ArgClose => if st.quotePending then SetTarget(st, Target(st) + "\"").(quotePending := false) else st
    case ToolClose =>
      if st.current == PendingTool then st.(pending := None, current := DroppedTool, quotePending := false,
                                            buffer := [])
      else
        var args := (if call.name == [] && st.buffer != [] then st.buffer else call.arguments)
                    + (if st.quotePending then "\"" else "");
        var closed := args + Braces(if BraceDepth(args) > 0 then BraceDepth(args) else 0);
        SetCurrent(st, call.(arguments := closed))
          .(quotePending := false, buffer := if call.name == [] then [] else st.buffer)
    case _ => st
  }

  // ----- the mapper

  /** The state after a sequence of events, each defined where it occurs. */
  ghost predicate DefinedRun(st: State, events: seq<Event>)
    requires Valid(st)
    decreases events
  {
    events == [] || (Defined(st, events[0]) && DefinedRun(Step(st, events[0]), events[1..]))
  }

  ghost function Run(st: State, events: seq<Event>): (st': State)
    requires Valid(st) && DefinedRun(st, events)
    ensures Valid(st')
    decreases events
  {
    if events == [] then st else Run(Step(st, events[0]), events[1..])
  }

  lemma {:induction false} RunConcat(st: State, a: seq<Event>, b: seq<Event>)
    requires Valid(st)
    ensures DefinedRun(st, a + b) <==> DefinedRun(st, a) && DefinedRun(Run(st, a), b)
    ensures DefinedRun(st, a + b) ==> Run(st, a + b) == Run(Run(st, a), b)
    decreases a
  {
    hide Step;
    if a == [] {
      assert a + b == b;
    } else {
      assert (a + b)[0] == a[0] && (a + b)[1..] == a[1..] + b;
      if Defined(st, a[0]) {
        RunConcat(Step(st, a[0]), a[1..], b);
      }
    }
  }

  /** White-space-only reasoning is discarded. */
  function MessageOf(st: State): Message {
    Message(if Blank(st.reasoning) then [] else st.reasoning, st.content, st.calls)
  }

  // ----- the syntax tree

  /** A node of the syntax tree: its tag, the text it covers, its children. */
  datatype Node = Node(tag: Tag, text: string, children: seq<Node>)

  function Own(node: Node): Event {
    Event(node.tag, node.text)
  }

  function PreOrder(node: Node): seq<Event> {
    [Own(node)] + PreOrderAll(node.children)
  }

  function PreOrderAll(nodes: seq<Node>): seq<Event> {
    if nodes == [] then [] else PreOrder(nodes[0]) + PreOrderAll(nodes[1..])
  }

  // ----- what becomes of texts

  /** The texts of the events with a tag, one after the other. */
  function Texts(events: seq<Event>, tag: Tag): string {
    if events == [] then []
    else (if events[0].tag == tag then events[0].text else []) + Texts(events[1..], tag)
  }

  /** The content is made of the content events and the reasoning of the reasoning events, in order. */
  lemma {:induction false} RunTexts(st: State, events: seq<Event>)
    requires Valid(st) && DefinedRun(st, events)
    ensures Run(st, events).content == st.content + Texts(events, Content)
    ensures Run(st, events).reasoning == st.reasoning + Texts(events, Reasoning)
    decreases events
  {
    hide ToolStep;
    if events != [] {
      TextsOfOne(st, events[0]);
      RunTexts(Step(st, events[0]), events[1..]);
      Joined(st.content, if events[0].tag == Content then events[0].text else [], Texts(events[1..], Content));
      Joined(st.reasoning, if events[0].tag == Reasoning then events[0].text else [], Texts(events[1..], Reasoning));
    }
  }

  lemma TextsOfOne(st: State, e: Event)
    requires Valid(st) && Defined(st, e)
    ensures Step(st, e).content == st.content + if e.tag == Content then e.text else []
    ensures Step(st, e).reasoning == st.reasoning + if e.tag == Reasoning then e.text else []
  {
  }

  lemma Joined(a: string, b: string, c: string)
    ensures (a + b) + c == a + (b + c)
  {
  }

  class Mapper {
    var reasoning: string
    var content: string
    var calls: seq<ToolCall>
    var pending: Option<ToolCall>
    var current: Current
    var argCount: nat
    var quotePending: bool
    var buffer: string

    ghost function Abs(): State
      reads this
    {
      State(reasoning, content, calls, pending, current, argCount, quotePending, buffer)
    }

    constructor ()
      ensures Abs() == START && Valid(Abs())
    {
      reasoning, content, calls, pending, current, argCount, quotePending, buffer := [], [], [], None, NoTool, 0, false, [];
    }

    method GetCall() returns (call: ToolCall)
      requires Valid(Abs()) && (current == PendingTool || current == LastTool)
      ensures call == CurrentCall(Abs())
    {
      call := if current == PendingTool then pending.value else calls[|calls| - 1];
    }

    method PutCall(call: ToolCall)
      requires Valid(Abs()) && (current == PendingTool || current == LastTool)
      modifies this
      ensures Abs() == SetCurrent(old(Abs()), call)
    {
      if current == PendingTool {
        pending := Some(call);
      } else {
        calls := calls[|calls| - 1 := call];
      }
    }

    method GetTarget() returns (text: string)
      requires Valid(Abs()) && (current == PendingTool || current == LastTool)
      ensures text == Target(Abs())
    {
      var call := GetCall();
      text := if call.name != [] then call.arguments else buffer;
    }

    method PutTarget(text: string)
      requires Valid(Abs()) && (current == PendingTool || current == LastTool)
      modifies this
      ensures Abs() == SetTarget(old(Abs()), text)
    {
      var call := GetCall();
      if call.name != [] {
        PutCall(call.(arguments := text));
      } else {
        buffer := text;
      }
    }

    method AppendToTarget(text: string)
      requires Valid(Abs()) && (current == PendingTool || current == LastTool)
      modifies this
      ensures Abs() == SetTarget(old(Abs()), Target(old(Abs())) + text)
    {
      var target := GetTarget();
      PutTarget(target + text);
    }

    method NameTool(text: string)
      requires Valid(Abs()) && (current == PendingTool || current == LastTool)
      modifies this
      ensures Abs() == ToolStep(old(Abs()), Event(ToolName, text))
    {
      var call := GetCall();
      call := call.(name := TrimEnd(text));
      if buffer != [] {
        call := call.(arguments := buffer);
        buffer := [];
      } else if call.arguments == [] {
        call := call.(arguments := "{");
      }
      if pending.Some? {
        calls := calls + [call];
        pending := None;
        current := LastTool;
      } else {
        PutCall(call);
      }
    }

    method NameArg(text: string)
      requires Valid(Abs()) && (current == PendingTool || current == LastTool)
      modifies this
      ensures Abs() == ToolStep(old(Abs()), Event(ArgName, text))
    {
      hide Escape, Trim;
      var entry := if argCount > 0 then "," else "";
      entry := entry + "\"" + Escape(Trim(text)) + "\":";
      argCount := argCount + 1;
      var target := GetTarget();
      if target == [] {
        target := "{";
      }
      PutTarget(target + entry);
    }

    method AddValue(e: Event)
      requires Valid(Abs()) && (current == PendingTool || current == LastTool)
      requires e.tag == ArgValue || e.tag == ArgStringValue
      modifies this
      ensures Abs() == ToolStep(old(Abs()), e)
    {
      var value := "";
      if e.tag == ArgStringValue {
        if e.text == [] || !quotePending {
          value := "\"";
          quotePending := true;
        }
        value := value + Escape(e.text);
      } else if e.text != [] {
        value := Q.NormalizeQuotesToJson(e.text);
      }
      assert Q.Normalize([]) == [];
      AppendToTarget(value);
    }

    method CloseTool()
      requires Valid(Abs()) && (current == PendingTool || current == LastTool)
      modifies this
      ensures Abs() == ToolStep(old(Abs()), Event(ToolClose, []))
    {
      var call := GetCall();
      if call.name == [] && buffer != [] {
        call := call.(arguments := buffer);
        buffer := [];
      }
      if quotePending {
        call := call.(arguments := call.arguments + "\"");
        quotePending := false;
      }
      var args := call.arguments;
      var depth := JsonBraceDepth(args);
      var d, braces := depth, [];
      while d > 0
        invariant d <= depth && |braces| == if depth > 0 then depth - (if d > 0 then d else 0) else 0
        invariant braces == Braces(|braces|)
        decreases d
      {
        braces := braces + "}";
        d := d - 1;
      }
      call := call.(arguments := args + braces);
      if pending.Some? {
        if call.name != [] {
          assert false;
        }
        pending := None;
        current := DroppedTool;
      } else {
        PutCall(call);
      }
      assert args + [] == args;
    }

    method Map(e: Event)
      requires Valid(Abs()) && Defined(Abs(), e)
      modifies this
      ensures Abs() == Step(old(Abs()), e)
    {
      match e.tag {
        case Reasoning => reasoning := reasoning + e.text;
        case Content => content := content + e.text;
        case ToolOpen =>
          pending, current, argCount, quotePending, buffer := Some(EMPTY_CALL), PendingTool, 0, false, [];
        case ArgOpen => quotePending := false;
        case Other =>
        case _ =>
          if current != NoTool {
            MapTool(e);
          }
      }
    }

    method MapTool(e: Event)
      requires Valid(Abs()) && (current == PendingTool || current == LastTool)
      modifies this
      ensures Abs() == ToolStep(old(Abs()), e)
    {
      match e.tag {
        case ToolId =>
          var call := GetCall();
          PutCall(call.(id := Unquote(TrimEnd(e.text))));
        case ToolName => NameTool(e.text);
        case ToolArgs =>
          var text := TrimEnd(e.text);
          if text != [] && text[0] == '{' {
            PutTarget(text);
          }
        case ArgName => NameArg(e.text);
        case ArgValue => AddValue(e);
        case ArgStringValue => AddValue(e);
        case ArgClose =>
          if quotePending {
            AppendToTarget("\"");
            quotePending := false;
          }
        case ToolClose => CloseTool();
        case _ =>
      }
    }

    method Visit(node: Node)
      requires Valid(Abs()) && DefinedRun(Abs(), PreOrder(node))
      modifies this
      ensures Abs() == Run(old(Abs()), PreOrder(node))
      decreases node, 1
    {
      hide Step;
      RunConcat(Abs(), [Own(node)], PreOrderAll(node.children));
      assert [Own(node)][1..] == [];
      Map(Own(node));
      VisitAll(node.children);
    }

    method VisitAll(nodes: seq<Node>)
      requires Valid(Abs()) && DefinedRun(Abs(), PreOrderAll(nodes))
      modifies this
      ensures Abs() == Run(old(Abs()), PreOrderAll(nodes))
      decreases nodes, 0
    {
      hide Step;
      var i := 0;
      while i < |nodes|
        invariant 0 <= i <= |nodes| && Valid(Abs())
        invariant DefinedRun(Abs(), PreOrderAll(nodes[i..]))
        invariant Run(Abs(), PreOrderAll(nodes[i..])) == Run(old(Abs()), PreOrderAll(nodes))
      {
        assert nodes[i..][0] == nodes[i] && nodes[i..][1..] == nodes[i + 1..];
        RunConcat(Abs(), PreOrder(nodes[i]), PreOrderAll(nodes[i + 1..]));
        Visit(nodes[i]);
        i := i + 1;
      }
    }

    /** Visits the whole tree and finishes the message. The flush of a named pending call never has anything to do. */
    method FromAst(nodes: seq<Node>) returns (message: Message)
      requires Abs() == START && DefinedRun(START, PreOrderAll(nodes))
      modifies this
      ensures message == MessageOf(Run(START, PreOrderAll(nodes)))
      ensures message.content == Texts(PreOrderAll(nodes), Content)
      ensures var reasoning := Texts(PreOrderAll(nodes), Reasoning);
              message.reasoning == if forall c :: c in reasoning ==> c in [' ', '\n', '\r', '\t'] then [] else reasoning
    {
      hide Run, DefinedRun, Texts, Blank;
      BlankMeaning(Texts(PreOrderAll(nodes), Reasoning));
      assert [] + Texts(PreOrderAll(nodes), Reasoning) == Texts(PreOrderAll(nodes), Reasoning);
      assert [] + Texts(PreOrderAll(nodes), Content) == Texts(PreOrderAll(nodes), Content);
      RunTexts(START, PreOrderAll(nodes));
      VisitAll(nodes);
      if pending.Some? && pending.value.name != [] {
        assert false;
      }
      if Blank(reasoning) {
        reasoning := [];
      }
      message := Message(reasoning, content, calls);
    }
  }
}
