/** Messages parsed from a growing text only grow, so their deltas rebuild the last one. */
module Streaming {
  import opened JsonText
  import opened ChatMessage
  import opened ToolMapper
  import Q = QuoteNormalizer
  import QP = QuotePrefix

  /** Texts and arguments of the last call grow, earlier calls stay, calls may be added. Ids are not compared for the last call. */
  ghost predicate Grows(a: Message, b: Message) {
    a.reasoning <= b.reasoning && a.content <= b.content && CallsGrow(a.calls, b.calls)
  }

  ghost predicate CallsGrow(a: seq<ToolCall>, b: seq<ToolCall>) {
    && |a| <= |b|
    && (forall i :: 0 <= i < |a| - 1 ==> a[i] == b[i])
    && (a != [] ==> a[|a| - 1].name == b[|a| - 1].name && a[|a| - 1].arguments <= b[|a| - 1].arguments)
  }

  // ----- events in order

  ghost predicate Named(st: State) {
    Valid(st) && (st.current == LastTool ==> CurrentCall(st).name != [] && CurrentCall(st).arguments != [])
  }

  /**
    A call is named once, its name is not blank, and a JSON object comes before any other argument and only once. Events
    without a tool are ignored, so they are always in order.
   */
  predicate Orderly(st: State, e: Event)
    requires Valid(st)
  {
    && Defined(st, e)
    && (st.current == NoTool
        || match e.tag
           case ToolName => st.current == PendingTool && TrimEnd(e.text) != []
           case ToolArgs => TrimEnd(e.text) != [] && TrimEnd(e.text)[0] == '{' ==>
             st.current == PendingTool || CurrentCall(st).arguments == "{"
           case _ => true)
  }

  ghost predicate OrderlyRun(st: State, events: seq<Event>)
    requires Valid(st)
    decreases events
  {
    events == [] || (Orderly(st, events[0]) && OrderlyRun(Step(st, events[0]), events[1..]))
  }

  lemma {:induction false} OrderlyIsDefined(st: State, events: seq<Event>)
    requires Valid(st) && OrderlyRun(st, events)
    ensures DefinedRun(st, events)
    decreases events
  {
    if events != [] {
      OrderlyIsDefined(Step(st, events[0]), events[1..]);
    }
  }

  lemma {:induction false} OrderlyConcat(st: State, a: seq<Event>, b: seq<Event>)
    requires Valid(st) && OrderlyRun(st, a) && DefinedRun(st, a)
    ensures OrderlyRun(st, a + b) <==> OrderlyRun(Run(st, a), b)
    decreases a
  {
    hide Step, Orderly;
    if a == [] {
      assert a + b == b;
    } else {
      assert (a + b)[0] == a[0] && (a + b)[1..] == a[1..] + b;
      OrderlyConcat(Step(st, a[0]), a[1..], b);
    }
  }

  /** The same event with its text cut short. Names are parsed as a whole and not cut. */
  predicate CutOf(cut: Event, e: Event) {
    && cut.tag == e.tag
    && cut.text <= e.text
    && match e.tag
       case Reasoning | Content | ToolId | ToolArgs | ArgStringValue => true
       case ArgValue => QP.SafeCut(e.text, |cut.text|)
       case _ => cut == e
  }

  /** A later piece of a string value is not cut down to nothing, since an empty piece opens a new quote. */
  predicate CutAt(st: State, cut: Event, e: Event) {
    CutOf(cut, e) && (e.tag == ArgStringValue && st.quotePending && cut.text == [] ==> e.text == [])
  }

  // ----- one event grows the message

  lemma BlankMonotone(a: string, b: string)
    requires a <= b
    ensures (if Blank(a) then [] else a) <= (if Blank(b) then [] else b)
  {
    if !Blank(a) {
      var c :| c in a && !(c == ' ' || c == '\n' || c == '\r' || c == '\t');
      assert c in b;
    }
  }

  /** Trimming the end of a beginning gives a beginning of the trimmed text. */
  lemma {:induction false} TrimEndMonotone(a: string, b: string)
    requires a <= b
    ensures TrimEnd(a) <= TrimEnd(b)
    decreases |b|
  {
    if a != b && b != [] && Space(b[|b| - 1]) {
      TrimEndMonotone(a, b[..|b| - 1]);
    }
  }

  ghost predicate OnlyCallsGrow(a: State, b: State) {
    b.reasoning == a.reasoning && b.content == a.content && CallsGrow(a.calls, b.calls)
  }

  lemma AppendGrows(st: State, text: string)
    requires Named(st) && (st.current == PendingTool || st.current == LastTool)
    ensures Named(SetTarget(st, Target(st) + text)) && OnlyCallsGrow(st, SetTarget(st, Target(st) + text))
  {
  }

  lemma NameGrows(st: State, e: Event)
    requires Named(st) && st.current == PendingTool && e.tag == ToolName && TrimEnd(e.text) != []
    ensures Named(ToolStep(st, e)) && OnlyCallsGrow(st, ToolStep(st, e))
  {
  }

  lemma ArgNameGrows(st: State, e: Event)
    requires Named(st) && (st.current == PendingTool || st.current == LastTool) && e.tag == ArgName
    ensures Named(ToolStep(st, e)) && OnlyCallsGrow(st, ToolStep(st, e))
  {
  }

  lemma CloseGrows(st: State, e: Event)
    requires Named(st) && (st.current == PendingTool || st.current == LastTool) && e.tag == ToolClose
    ensures Named(ToolStep(st, e)) && OnlyCallsGrow(st, ToolStep(st, e))
  {
  }

  lemma ArgsGrow(st: State, e: Event)
    requires Named(st) && (st.current == PendingTool || st.current == LastTool) && e.tag == ToolArgs && Orderly(st, e)
    ensures Named(ToolStep(st, e)) && OnlyCallsGrow(st, ToolStep(st, e))
  {
  }

  lemma ToolStepGrows(st: State, e: Event)
    requires Named(st) && (st.current == PendingTool || st.current == LastTool) && Orderly(st, e)
    ensures Named(ToolStep(st, e)) && OnlyCallsGrow(st, ToolStep(st, e))
  {
    hide Q.Normalize, Escape, Braces, BraceDepth, StringText;
    match e.tag
    case ToolName => NameGrows(st, e);
    case ToolArgs => ArgsGrow(st, e);
    case ArgName => ArgNameGrows(st, e);
    case ArgValue => AppendGrows(st, Q.Normalize(e.text));
    case ArgStringValue => AppendGrows(st, StringText(e.text, st.quotePending));
    case ArgClose => AppendGrows(st, "\"");
    case ToolClose => CloseGrows(st, e);
    case _ =>
  }

  /** States whose texts and calls grow give messages that grow. */
  lemma StatesGrow(a: State, b: State)
    requires a.reasoning <= b.reasoning && a.content <= b.content && CallsGrow(a.calls, b.calls)
    ensures Grows(MessageOf(a), MessageOf(b))
  {
    hide CallsGrow, Blank;
    BlankMonotone(a.reasoning, b.reasoning);
  }

  lemma SameCallsGrow(calls: seq<ToolCall>)
    ensures CallsGrow(calls, calls)
  {
  }

  /** Every event in order only lets the message grow. */
  lemma StepGrows(st: State, e: Event)
    requires Named(st) && Orderly(st, e)
    ensures Named(Step(st, e)) && Grows(MessageOf(st), MessageOf(Step(st, e)))
  {
    hide ToolStep, CallsGrow, MessageOf, Grows;
    SameCallsGrow(st.calls);
    if st.current == PendingTool || st.current == LastTool {
      ToolStepGrows(st, e);
    }
    StatesGrow(st, Step(st, e));
  }

  // ----- a cut event gives less of the same

  lemma AppendBothGrows(st: State, a: string, b: string)
    requires Named(st) && (st.current == PendingTool || st.current == LastTool) && a <= b
    ensures CallsGrow(SetTarget(st, Target(st) + a).calls, SetTarget(st, Target(st) + b).calls)
  {
  }

  lemma CutArgsGrows(st: State, cut: Event, e: Event)
    requires Named(st) && (st.current == PendingTool || st.current == LastTool)
    requires Orderly(st, e) && CutOf(cut, e) && e.tag == ToolArgs
    ensures Orderly(st, cut) && CallsGrow(ToolStep(st, cut).calls, ToolStep(st, e).calls)
  {
    TrimEndMonotone(cut.text, e.text);
  }

  /** A piece of a string value cut short gives a beginning exactly if it is not a later piece cut down to nothing. */
  lemma CutStringIff(cut: string, text: string, quotePending: bool)
    requires cut <= text
    ensures StringText(cut, quotePending) <= StringText(text, quotePending) <==> (quotePending && cut == [] ==> text == [])
  {
    EscapeMonotone(cut, text);
    if quotePending && cut == [] {
      NoQuoteFirst(text);
    } else if !quotePending {
      assert "\"" + Escape(cut) <= "\"" + Escape(text);
    }
  }

  lemma NoQuoteFirst(text: string)
    ensures text != [] ==> Escape(text) != [] && Escape(text)[0] != '\"'
    ensures StringText([], true) == "\"" && (text != [] ==> StringText(text, true) == Escape(text))
  {
    if text != [] {
      EscapeShape(text[0]);
      assert Escape(text)[0] == EscapeChar(text[0])[0];
    }
  }

  lemma CutStringGrows(st: State, cut: string, text: string)
    requires Named(st) && (st.current == PendingTool || st.current == LastTool) && cut <= text
    requires st.quotePending && cut == [] ==> text == []
    ensures CallsGrow(SetTarget(st, Target(st) + StringText(cut, st.quotePending)).calls,
                      SetTarget(st, Target(st) + StringText(text, st.quotePending)).calls)
  {
    hide Escape, SetTarget, CallsGrow, StringText;
    CutStringIff(cut, text, st.quotePending);
    AppendBothGrows(st, StringText(cut, st.quotePending), StringText(text, st.quotePending));
  }

  lemma CutIdGrows(st: State, cut: Event, e: Event)
    requires Named(st) && (st.current == PendingTool || st.current == LastTool) && cut.tag == e.tag == ToolId
    ensures CallsGrow(ToolStep(st, cut).calls, ToolStep(st, e).calls)
  {
    hide TrimEnd, Unquote;
  }

  lemma CutToolStepGrows(st: State, cut: Event, e: Event)
    requires Named(st) && (st.current == PendingTool || st.current == LastTool) && Orderly(st, e) && CutAt(st, cut, e)
    ensures Orderly(st, cut)
    ensures ToolStep(st, cut).reasoning == ToolStep(st, e).reasoning && ToolStep(st, cut).content == ToolStep(st, e).content
    ensures CallsGrow(ToolStep(st, cut).calls, ToolStep(st, e).calls)
  {
    hide Q.Normalize, Escape, Braces, BraceDepth, QP.SafeCut, CallsGrow, StringText;
    match e.tag
    case ToolArgs => CutArgsGrows(st, cut, e);
    case ArgStringValue => CutStringGrows(st, cut.text, e.text);
    case ToolId => CutIdGrows(st, cut, e);
    case ArgValue =>
      QP.NormalizePrefixIff(e.text, |cut.text|);
      assert e.text[..|cut.text|] == cut.text;
      AppendBothGrows(st, Q.Normalize(cut.text), Q.Normalize(e.text));
    case _ => SameCallsGrow(ToolStep(st, e).calls);
  }

  /** An event with its text cut short is in order too, and gives a beginning of what the whole event gives. */
  lemma CutStepGrows(st: State, cut: Event, e: Event)
    requires Named(st) && Orderly(st, e) && CutAt(st, cut, e)
    ensures Orderly(st, cut) && Grows(MessageOf(Step(st, cut)), MessageOf(Step(st, e)))
  {
    hide ToolStep, QP.SafeCut, CallsGrow, MessageOf, Grows;
    SameCallsGrow(Step(st, e).calls);
    if st.current == PendingTool || st.current == LastTool {
      CutToolStepGrows(st, cut, e);
    }
    StatesGrow(Step(st, cut), Step(st, e));
  }

  // ----- events that do the same, and events that do nothing

  /** The part of an event's text that the mapper looks at. */
  function Essence(e: Event): string {
    match e.tag
    case ToolOpen | ToolClose | ArgOpen | ArgClose | Other => []
    case ToolName => TrimEnd(e.text)
    case ToolId => Unquote(TrimEnd(e.text))
    case ToolArgs => if TrimEnd(e.text) != [] && TrimEnd(e.text)[0] == '{' then TrimEnd(e.text) else []
    case ArgName => Trim(e.text)
    case _ => e.text
  }

  /** The texts may differ, as those of enclosing nodes do, but not in what the mapper looks at. */
  predicate SameEffect(a: Event, b: Event) {
    a.tag == b.tag && Essence(a) == Essence(b)
  }

  lemma SameStep(st: State, a: Event, b: Event)
    requires Valid(st) && SameEffect(a, b) && Defined(st, b)
    ensures Defined(st, a) && Step(st, a) == Step(st, b)
    ensures Orderly(st, b) ==> Orderly(st, a)
  {
    hide TrimEnd, Trim, Unquote, Q.Normalize, Escape, Braces, BraceDepth;
  }

  /** Nothing comes of the event in this state. */
  predicate Idle(st: State, e: Event) {
    && Defined(st, e)
    && match e.tag
       case Other => true
       case ArgOpen => !st.quotePending
       case ArgClose => !st.quotePending
       case ToolArgs => Essence(e) == []
       case _ => false
  }

  lemma IdleStep(st: State, e: Event)
    requires Valid(st) && Idle(st, e)
    ensures Orderly(st, e) && Step(st, e) == st
  {
  }

  lemma {:induction false} IdleRun(st: State, events: seq<Event>)
    requires Valid(st) && forall e :: e in events ==> Idle(st, e)
    ensures OrderlyRun(st, events) && DefinedRun(st, events) && Run(st, events) == st
    decreases events
  {
    hide Idle, Orderly, Step;
    if events != [] {
      IdleStep(st, events[0]);
      IdleRun(st, events[1..]);
    }
  }

  // ----- whole runs

  /**
    The events of an earlier parse: they do the same as the first events of a later one, up to an event that may be cut;
    nothing comes of the events after it, which belong to the node that was cut.
   */
  ghost predicate Partial(st: State, early: seq<Event>, late: seq<Event>)
    requires Valid(st)
    decreases early
  {
    || early == []
    || (&& late != [] && Defined(st, late[0])
        && (|| (SameEffect(early[0], late[0]) && Partial(Step(st, late[0]), early[1..], late[1..]))
            || (CutAt(st, early[0], late[0]) && forall e :: e in early[1..] ==> Idle(Step(st, early[0]), e))))
  }

  lemma GrowsTransitive(a: Message, b: Message, c: Message)
    requires Grows(a, b) && Grows(b, c)
    ensures Grows(a, c)
  {
  }

  lemma {:induction false} RunGrows(st: State, events: seq<Event>)
    requires Named(st) && OrderlyRun(st, events)
    ensures DefinedRun(st, events) && Named(Run(st, events))
    ensures Grows(MessageOf(st), MessageOf(Run(st, events)))
    decreases events
  {
    hide Step, Orderly, Grows;
    if events == [] {
      GrowsReflexive(MessageOf(st));
    } else {
      OrderlyIsDefined(st, events);
      StepGrows(st, events[0]);
      RunGrows(Step(st, events[0]), events[1..]);
      GrowsTransitive(MessageOf(st), MessageOf(Step(st, events[0])), MessageOf(Run(st, events)));
    }
  }

  lemma GrowsReflexive(m: Message)
    ensures Grows(m, m)
  {
  }

  lemma {:induction false} PartialGrows(st: State, early: seq<Event>, late: seq<Event>)
    requires Named(st) && OrderlyRun(st, late) && Partial(st, early, late)
    ensures OrderlyRun(st, early) && DefinedRun(st, early) && DefinedRun(st, late)
    ensures Grows(MessageOf(Run(st, early)), MessageOf(Run(st, late)))
    decreases early
  {
    hide Step, Orderly, Grows, CutAt, Idle, SameEffect;
    OrderlyIsDefined(st, late);
    if early == [] {
      RunGrows(st, late);
    } else if SameEffect(early[0], late[0]) && Partial(Step(st, late[0]), early[1..], late[1..]) {
      StepGrows(st, late[0]);
      SameStep(st, early[0], late[0]);
      PartialGrows(Step(st, late[0]), early[1..], late[1..]);
    } else {
      CutFirstGrows(st, early, late);
    }
  }

  /** A parse that ends inside its first node. */
  lemma CutFirstGrows(st: State, early: seq<Event>, late: seq<Event>)
    requires Named(st) && OrderlyRun(st, late) && early != [] && late != [] && CutAt(st, early[0], late[0])
    requires forall e :: e in early[1..] ==> Idle(Step(st, early[0]), e)
    ensures OrderlyRun(st, early) && DefinedRun(st, early) && DefinedRun(st, late)
    ensures Grows(MessageOf(Run(st, early)), MessageOf(Run(st, late)))
  {
    hide Step, Grows, CutAt, Idle;
    CutStepGrows(st, early[0], late[0]);
    IdleRun(Step(st, early[0]), early[1..]);
    OrderlyIsDefined(st, early);
    OrderlyIsDefined(st, late);
    StepGrows(st, late[0]);
    RunGrows(Step(st, late[0]), late[1..]);
    GrowsTransitive(MessageOf(Run(st, early)), MessageOf(Step(st, late[0])), MessageOf(Run(st, late)));
  }

  /** Of two parses of a growing text, the earlier message is a beginning of the later one. */
  lemma MessageGrows(early: seq<Event>, late: seq<Event>)
    requires OrderlyRun(START, late) && Partial(START, early, late)
    ensures OrderlyRun(START, early) && DefinedRun(START, early) && DefinedRun(START, late)
    ensures Grows(MessageOf(Run(START, early)), MessageOf(Run(START, late)))
  {
    PartialGrows(START, early, late);
  }

  // ----- trees cut along the right spine

  /**
    `early` is `late` cut along its right spine: the texts of the nodes on the spine end earlier. Where that makes a
    difference to the mapper, the node is cut, and nothing comes of the nodes inside it.
   */
  ghost predicate Truncates(st: State, early: Node, late: Node)
    requires Valid(st)
    decreases early, 1
  {
    && Defined(st, Own(late))
    && (|| (SameEffect(Own(early), Own(late)) && TruncatesAll(Step(st, Own(late)), early.children, late.children))
        || (CutAt(st, Own(early), Own(late))
            && forall e :: e in PreOrderAll(early.children) ==> Idle(Step(st, Own(early)), e)))
  }

  /** All nodes are there up to the last one, which may be cut. */
  ghost predicate TruncatesAll(st: State, early: seq<Node>, late: seq<Node>)
    requires Valid(st)
    decreases early, 0
  {
    || early == []
    || (late != [] && if |early| == 1 then Truncates(st, early[0], late[0])
                      else && early[0] == late[0] && DefinedRun(st, PreOrder(late[0]))
                           && TruncatesAll(Run(st, PreOrder(late[0])), early[1..], late[1..]))
  }

  lemma PartialNext(st: State, e: Event, early: seq<Event>, late: seq<Event>)
    requires Valid(st) && Defined(st, e) && early != [] && late != [] && early[0] == late[0] == e
    requires Partial(Step(st, e), early[1..], late[1..])
    ensures Partial(st, early, late)
  {
    hide Step, CutAt, Idle, Essence;
  }

  lemma {:induction false} PartialAfter(st: State, before: seq<Event>, early: seq<Event>, late: seq<Event>)
    requires Valid(st) && DefinedRun(st, before) && Partial(Run(st, before), early, late)
    ensures Partial(st, before + early, before + late)
    decreases before
  {
    hide Step, CutAt, Idle, SameEffect, Partial;
    if before == [] {
      assert before + early == early && before + late == late;
    } else {
      PartialAfter(Step(st, before[0]), before[1..], early, late);
      assert (before + early)[1..] == before[1..] + early && (before + late)[1..] == before[1..] + late;
      PartialNext(st, before[0], before + early, before + late);
    }
  }

  /** Visiting a tree cut along its right spine gives the events of an earlier parse. */
  lemma {:induction false} TruncatedIsPartial(st: State, early: seq<Node>, late: seq<Node>, more: seq<Event>)
    requires Valid(st) && TruncatesAll(st, early, late)
    ensures Partial(st, PreOrderAll(early), PreOrderAll(late) + more)
    decreases early, 0
  {
    hide Step, CutAt, Idle, SameEffect;
    if |early| == 1 {
      NodeIsPartial(st, early[0], late[0], PreOrderAll(late[1..]) + more);
      assert PreOrderAll(early) == PreOrder(early[0]);
      assert PreOrderAll(late) + more == PreOrder(late[0]) + (PreOrderAll(late[1..]) + more);
    } else if early != [] {
      var first := PreOrder(late[0]);
      TruncatedIsPartial(Run(st, first), early[1..], late[1..], more);
      PartialAfter(st, first, PreOrderAll(early[1..]), PreOrderAll(late[1..]) + more);
      assert PreOrderAll(late) + more == first + (PreOrderAll(late[1..]) + more);
    }
  }

  lemma {:induction false} NodeIsPartial(st: State, early: Node, late: Node, more: seq<Event>)
    requires Valid(st) && Truncates(st, early, late)
    ensures Partial(st, PreOrder(early), PreOrder(late) + more)
    decreases early, 1
  {
    hide Step, CutAt, Idle, SameEffect;
    var a, b := PreOrder(early), PreOrder(late) + more;
    assert a[0] == Own(early) && a[1..] == PreOrderAll(early.children);
    assert b[0] == Own(late) && b[1..] == PreOrderAll(late.children) + more;
    if SameEffect(Own(early), Own(late)) && TruncatesAll(Step(st, Own(late)), early.children, late.children) {
      TruncatedIsPartial(Step(st, Own(late)), early.children, late.children, more);
    }
  }

  /** The message of a tree cut along its right spine is a beginning of the message of the whole tree. */
  lemma TreeGrows(early: seq<Node>, late: seq<Node>)
    requires OrderlyRun(START, PreOrderAll(late)) && TruncatesAll(START, early, late)
    ensures OrderlyRun(START, PreOrderAll(early))
    ensures DefinedRun(START, PreOrderAll(early)) && DefinedRun(START, PreOrderAll(late))
    ensures Grows(MessageOf(Run(START, PreOrderAll(early))), MessageOf(Run(START, PreOrderAll(late))))
  {
    TruncatedIsPartial(START, early, late, []);
    assert PreOrderAll(late) + [] == PreOrderAll(late);
    MessageGrows(PreOrderAll(early), PreOrderAll(late));
  }

  // ----- a stream of messages

  /** The message with its calls' ids pinned. */
  function WithIds(m: Message, ids: seq<string>): Message
    requires |m.calls| <= |ids|
  {
    m.(calls := Pinned(m.calls, ids))
  }

  /** All calls of the earlier message are there in the later one, with the same ids. */
  ghost predicate SameIds(a: Message, b: Message) {
    |a.calls| <= |b.calls| && forall i :: 0 <= i < |a.calls| ==> a.calls[i].id == b.calls[i].id
  }

  lemma PinnedExtends(a: Message, b: Message, ids: seq<string>, moreIds: seq<string>)
    requires Grows(a, b) && ids <= moreIds && |a.calls| <= |ids| && |b.calls| <= |moreIds|
    ensures Extends(WithIds(a, ids), WithIds(b, moreIds))
    ensures SameIds(WithIds(a, ids), WithIds(b, moreIds))
  {
  }

  /** All deltas of a sequence of messages, each computed against the one before, the first against the empty message. */
  function AllDeltas(messages: seq<Message>): Result<seq<Delta>> {
    var n := |messages|;
    if n == 0 then Ok([])
    else
      var before := AllDeltas(messages[..n - 1]);
      var last := Diffs(if n == 1 then EMPTY_MESSAGE else messages[n - 2], messages[n - 1]);
      if before.Err? then before else if last.Err? then last else Ok(before.value + last.value)
  }

  lemma {:induction false} DeltasRebuild(messages: seq<Message>)
    requires forall i :: 0 < i < |messages| ==> Extends(messages[i - 1], messages[i])
    ensures AllDeltas(messages).Ok?
    ensures Apply(EMPTY_MESSAGE, AllDeltas(messages).value) == if messages == [] then EMPTY_MESSAGE else messages[|messages| - 1]
  {
    hide Diffs, Extends;
    var n := |messages|;
    if n > 0 {
      DeltasRebuild(messages[..n - 1]);
      var prev := if n == 1 then EMPTY_MESSAGE else messages[n - 2];
      if n == 1 {
        EmptyExtends(messages[0]);
      }
      DiffsRebuildIff(prev, messages[n - 1]);
      ApplyConcat(EMPTY_MESSAGE, AllDeltas(messages[..n - 1]).value, Diffs(prev, messages[n - 1]).value);
    }
  }

  lemma EmptyExtends(m: Message)
    ensures Extends(EMPTY_MESSAGE, m)
  {
  }

  /** A parse in order, and ids for all of its calls. */
  ghost predicate Parsed(parse: seq<Node>, ids: seq<string>) {
    OrderlyRun(START, PreOrderAll(parse)) && DefinedRun(START, PreOrderAll(parse))
    && |MessageOf(Run(START, PreOrderAll(parse))).calls| <= |ids|
  }

  ghost function ParsedMessage(parse: seq<Node>, ids: seq<string>): Message
    requires Parsed(parse, ids)
  {
    WithIds(MessageOf(Run(START, PreOrderAll(parse))), ids)
  }

  /** Successive parses of a growing text, and the ids pinned by the time of each. */
  ghost predicate Stream(parses: seq<seq<Node>>, ids: seq<seq<string>>) {
    && |parses| == |ids|
    && (forall i :: 0 <= i < |parses| ==> Parsed(parses[i], ids[i]))
    && (forall i :: 0 < i < |parses| ==> Partial(START, PreOrderAll(parses[i - 1]), PreOrderAll(parses[i])) && ids[i - 1] <= ids[i])
  }

  ghost function Messages(parses: seq<seq<Node>>, ids: seq<seq<string>>): (messages: seq<Message>)
    requires Stream(parses, ids)
    ensures |messages| == |parses|
  {
    seq(|parses|, i requires 0 <= i < |parses| => ParsedMessage(parses[i], ids[i]))
  }

  /**
    Over a whole stream no delta fails, the ids of calls never change once they are pinned, and a client that applies
    all deltas ends up with the last message.
   */
  lemma StreamRebuilds(parses: seq<seq<Node>>, ids: seq<seq<string>>)
    requires Stream(parses, ids) && parses != []
    ensures var messages := Messages(parses, ids);
            && AllDeltas(messages).Ok?
            && Apply(EMPTY_MESSAGE, AllDeltas(messages).value) == messages[|messages| - 1]
            && forall i :: 0 < i < |messages| ==> SameIds(messages[i - 1], messages[i])
  {
    hide AllDeltas, Extends, Diffs, MessageOf;
    var messages := Messages(parses, ids);
    forall i | 0 < i < |messages|
      ensures Extends(messages[i - 1], messages[i])
      ensures SameIds(messages[i - 1], messages[i])
    {
      MessageGrows(PreOrderAll(parses[i - 1]), PreOrderAll(parses[i]));
      PinnedExtends(MessageOf(Run(START, PreOrderAll(parses[i - 1]))), MessageOf(Run(START, PreOrderAll(parses[i]))),
                    ids[i - 1], ids[i]);
    }
    DeltasRebuild(messages);
  }

  /** Parses whose trees are cut along their right spines give a stream. */
  lemma TreesStream(parses: seq<seq<Node>>, ids: seq<seq<string>>)
    requires |parses| == |ids| && forall i :: 0 <= i < |parses| ==> Parsed(parses[i], ids[i])
    requires forall i :: 0 < i < |parses| ==> TruncatesAll(START, parses[i - 1], parses[i]) && ids[i - 1] <= ids[i]
    ensures Stream(parses, ids)
  {
    hide TruncatesAll, Partial, Parsed;
    forall i | 0 < i < |parses|
      ensures Partial(START, PreOrderAll(parses[i - 1]), PreOrderAll(parses[i]))
    {
      TruncatedIsPartial(START, parses[i - 1], parses[i], []);
      assert PreOrderAll(parses[i]) + [] == PreOrderAll(parses[i]);
    }
  }

  // ----- the loop of a client

  /** Parses of a growing text, and enough new ids for each of them. */
  ghost predicate GrowingParses(parses: seq<seq<Node>>, newIds: seq<seq<string>>) {
    && |parses| == |newIds|
    && (forall i :: 0 <= i < |parses| ==> Parsed(parses[i], newIds[i]))
    && (forall i :: 0 < i < |parses| ==> Partial(START, PreOrderAll(parses[i - 1]), PreOrderAll(parses[i])))
  }

  /** Maps every parse to a message, pins its ids and computes the deltas against the message before; none fails. */
  method StreamDeltas(parses: seq<seq<Node>>, newIds: seq<seq<string>>)
    returns (deltas: seq<Delta>, ids: seq<string>, pins: seq<seq<string>>)
    requires GrowingParses(parses, newIds)
    ensures Stream(parses, pins) && AllDeltas(Messages(parses, pins)) == Ok(deltas)
    ensures parses != [] ==> ids == pins[|pins| - 1]
    ensures parses != [] ==> Apply(EMPTY_MESSAGE, deltas) == ParsedMessage(parses[|parses| - 1], ids)
  {
    hide AllDeltas, Diffs, Extends, MessageOf, Partial, OrderlyRun, Texts, Blank, SameIds;
    hide DefinedRun, Run, PreOrderAll, Step;
    deltas, ids, pins := [], [], [];
    NoDeltas();
    var prev := EMPTY_MESSAGE;
    var i := 0;
    while i < |parses|
      invariant 0 <= i <= |parses| && |pins| == i && Stream(parses[..i], pins)
      invariant AllDeltas(Messages(parses[..i], pins)) == Ok(deltas)
      invariant if i == 0 then ids == [] && prev == EMPTY_MESSAGE
                else ids == pins[i - 1] && prev == Messages(parses[..i], pins)[i - 1]
    {
      var mapper := new Mapper();
      var message := mapper.FromAst(parses[i]);
      var pinned;
      pinned, ids := SetToolCallIds(message, ids, newIds[i]);
      OneMoreParse(parses, i, pins, ids);
      var r := ComputeDiffs(prev, pinned);
      NextDeltas(parses, i, pins, ids, prev, pinned, deltas);
      deltas := deltas + r.value;
      pins := pins + [ids];
      prev := pinned;
      i := i + 1;
    }
    assert parses[..i] == parses;
    if parses != [] {
      StreamRebuilds(parses, pins);
    }
  }

  lemma NoDeltas()
    ensures Stream([], []) && AllDeltas(Messages([], [])) == Ok([])
  {
  }

  lemma OneMoreParse(parses: seq<seq<Node>>, i: nat, pins: seq<seq<string>>, ids: seq<string>)
    requires i < |parses| && |pins| == i && Stream(parses[..i], pins)
    requires Parsed(parses[i], ids)
    requires i > 0 ==> Partial(START, PreOrderAll(parses[i - 1]), PreOrderAll(parses[i])) && pins[i - 1] <= ids
    ensures Stream(parses[..i + 1], pins + [ids])
    ensures Messages(parses[..i + 1], pins + [ids]) == Messages(parses[..i], pins) + [ParsedMessage(parses[i], ids)]
  {
    hide Parsed, Partial, ParsedMessage;
    var more, morePins := parses[..i + 1], pins + [ids];
    assert forall k :: 0 <= k < i ==> more[k] == parses[..i][k] && morePins[k] == pins[k];
    assert more[i] == parses[i] && morePins[i] == ids;
  }

  lemma NextDeltas(parses: seq<seq<Node>>, i: nat, pins: seq<seq<string>>, ids: seq<string>, prev: Message, pinned: Message,
                   deltas: seq<Delta>)
    requires i < |parses| && |pins| == i && Stream(parses[..i], pins) && Stream(parses[..i + 1], pins + [ids])
    requires Messages(parses[..i + 1], pins + [ids]) == Messages(parses[..i], pins) + [pinned]
    requires prev == if i == 0 then EMPTY_MESSAGE else Messages(parses[..i], pins)[i - 1]
    requires AllDeltas(Messages(parses[..i], pins)) == Ok(deltas)
    ensures Diffs(prev, pinned).Ok?
    ensures AllDeltas(Messages(parses[..i + 1], pins + [ids])) == Ok(deltas + Diffs(prev, pinned).value)
  {
    hide Stream, Messages, Diffs;
    var before := Messages(parses[..i], pins);
    var messages := before + [pinned];
    StreamRebuilds(parses[..i + 1], pins + [ids]);
    assert messages[..|messages| - 1] == before;
  }
}
