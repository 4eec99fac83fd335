/** What a run of the mapper makes of the names and ids of calls, told from the events alone, and how strings are closed. */
module MapperLaws {
  import opened Basics
  import opened JsonText
  import opened ChatMessage
  import opened ToolMapper
  import Q = QuoteNormalizer

  // ----- names and ids

  datatype Head = Head(name: string, id: string)

  /** The text of the last event with a tag before the next call is opened. */
  function LastIn(events: seq<Event>, tag: Tag): Option<string> {
    if events == [] || events[0].tag == ToolOpen then None
    else
      var later := LastIn(events[1..], tag);
      if later.Some? then later else if events[0].tag == tag then Some(events[0].text) else None
  }

  /** A call counts if it is named at all; its last name and its last id before the next call are taken, trimmed. */
  function CallHeads(events: seq<Event>): seq<Head> {
    if events == [] then []
    else (if events[0].tag == ToolOpen then HeadOf(events[1..], None, []) else []) + CallHeads(events[1..])
  }

  /** The call that the events belong to, if it has or gets a name. */
  function HeadOf(events: seq<Event>, name: Option<string>, id: string): seq<Head> {
    var lastName, lastId := LastIn(events, ToolName), LastIn(events, ToolId);
    if lastName.None? && name.None? then []
    else [Head(if lastName.Some? then TrimEnd(lastName.value) else name.value,
               if lastId.Some? then Unquote(TrimEnd(lastId.value)) else id)]
  }

  function Heads(calls: seq<ToolCall>): (heads: seq<Head>)
    ensures |heads| == |calls|
  {
    seq(|calls|, i requires 0 <= i < |calls| => Head(calls[i].name, calls[i].id))
  }

  /** The heads of the calls that are there after the events, as far as the state has come. */
  ghost function Expected(st: State, events: seq<Event>): seq<Head>
    requires Valid(st)
  {
    match st.current
    case NoTool | DroppedTool => Heads(st.calls) + CallHeads(events)
    case PendingTool => Heads(st.calls) + (HeadOf(events, None, st.pending.value.id) + CallHeads(events))
    case LastTool =>
      var last := st.calls[|st.calls| - 1];
      Heads(st.calls[..|st.calls| - 1]) + (HeadOf(events, Some(last.name), last.id) + CallHeads(events))
  }

  /** No event names a call that was dropped. */
  lemma {:induction false} DroppedHasNoName(st: State, events: seq<Event>)
    requires Valid(st) && st.current == DroppedTool && DefinedRun(st, events)
    ensures LastIn(events, ToolName) == None
    decreases events
  {
    if events != [] && events[0].tag != ToolOpen {
      DroppedHasNoName(Step(st, events[0]), events[1..]);
    }
  }

  /** What an event inside a call does to the call's name and id. */
  lemma StepHead(st: State, e: Event)
    requires Valid(st) && (st.current == PendingTool || st.current == LastTool) && e.tag != ToolOpen
    ensures var now, call := Step(st, e), CurrentCall(st);
            var id := if e.tag == ToolId then Unquote(TrimEnd(e.text)) else call.id;
            if st.current == PendingTool && e.tag != ToolName then
              now.calls == st.calls && now.current == (if e.tag == ToolClose then DroppedTool else PendingTool)
              && (e.tag != ToolClose ==> now.pending.value.id == id)
            else
              var earlier := if st.current == PendingTool then st.calls else st.calls[..|st.calls| - 1];
              && now.current == LastTool && |now.calls| == |earlier| + 1 && now.calls[..|earlier|] == earlier
              && now.calls[|earlier|].name == (if e.tag == ToolName then TrimEnd(e.text) else call.name)
              && now.calls[|earlier|].id == id
  {
    hide TrimEnd, Trim, Unquote, Escape, StringText, Q.Normalize, BraceDepth, Braces;
  }

  lemma LastInNext(e: Event, rest: seq<Event>, tag: Tag)
    requires e.tag != ToolOpen
    ensures LastIn([e] + rest, tag)
            == if LastIn(rest, tag).Some? then LastIn(rest, tag) else if e.tag == tag then Some(e.text) else None
  {
    assert ([e] + rest)[1..] == rest;
  }

  lemma CallHeadsNext(e: Event, rest: seq<Event>)
    ensures CallHeads([e] + rest) == (if e.tag == ToolOpen then HeadOf(rest, None, []) else []) + CallHeads(rest)
  {
    assert ([e] + rest)[1..] == rest;
  }

  lemma HeadsAppend(calls: seq<ToolCall>, call: ToolCall)
    ensures Heads(calls + [call]) == Heads(calls) + [Head(call.name, call.id)]
  {
  }

  lemma OpenExpected(st: State, e: Event, rest: seq<Event>)
    requires Valid(st) && e.tag == ToolOpen
    ensures Expected(st, [e] + rest) == Expected(Step(st, e), rest)
  {
    hide CallHeads, ToolStep, LastIn;
    var events := [e] + rest;
    CallHeadsNext(e, rest);
    assert LastIn(events, ToolName) == LastIn(events, ToolId) == None by {
      OpenEnds(events);
    }
    if st.current == LastTool {
      var last := |st.calls| - 1;
      HeadsAppend(st.calls[..last], st.calls[last]);
      assert st.calls[..last] + [st.calls[last]] == st.calls;
    }
  }

  lemma OpenEnds(events: seq<Event>)
    requires events != [] && events[0].tag == ToolOpen
    ensures LastIn(events, ToolName) == LastIn(events, ToolId) == None
  {
  }

  lemma PendingExpected(st: State, e: Event, rest: seq<Event>)
    requires Valid(st) && st.current == PendingTool && e.tag != ToolOpen && DefinedRun(Step(st, e), rest)
    ensures Expected(st, [e] + rest) == Expected(Step(st, e), rest)
  {
    hide CallHeads, Step, LastIn, TrimEnd, Unquote, DefinedRun, Heads;
    CallHeadsNext(e, rest);
    LastInNext(e, rest, ToolName);
    LastInNext(e, rest, ToolId);
    StepHead(st, e);
    if e.tag == ToolClose {
      DroppedHasNoName(Step(st, e), rest);
    } else if e.tag == ToolName {
      assert Step(st, e).calls[..|Step(st, e).calls| - 1] == st.calls;
    }
  }

  lemma LastExpected(st: State, e: Event, rest: seq<Event>)
    requires Valid(st) && st.current == LastTool && e.tag != ToolOpen
    ensures Expected(st, [e] + rest) == Expected(Step(st, e), rest)
  {
    hide CallHeads, Step, LastIn, TrimEnd, Unquote, Heads;
    CallHeadsNext(e, rest);
    LastInNext(e, rest, ToolName);
    LastInNext(e, rest, ToolId);
    StepHead(st, e);
  }

  lemma OutsideExpected(st: State, e: Event, rest: seq<Event>)
    requires Valid(st) && Defined(st, e) && (st.current == NoTool || st.current == DroppedTool) && e.tag != ToolOpen
    ensures Expected(st, [e] + rest) == Expected(Step(st, e), rest)
  {
    hide CallHeads, LastIn;
    CallHeadsNext(e, rest);
  }

  /** Exactly the calls that were named are in the message, in order, each with its last name and its last id. */
  lemma {:induction false} RunHeads(st: State, events: seq<Event>)
    requires Valid(st) && DefinedRun(st, events)
    ensures Heads(Run(st, events).calls) == Expected(st, events)
    decreases events
  {
    if events != [] {
      hide Expected, Step;
      var e, rest := events[0], events[1..];
      assert events == [e] + rest;
      if e.tag == ToolOpen {
        OpenExpected(st, e, rest);
      } else if st.current == PendingTool {
        PendingExpected(st, e, rest);
      } else if st.current == LastTool {
        LastExpected(st, e, rest);
      } else {
        OutsideExpected(st, e, rest);
      }
      RunHeads(Step(st, e), rest);
    }
  }

  /** The calls of a message, told from the events alone. */
  lemma MessageHeads(events: seq<Event>)
    requires DefinedRun(START, events)
    ensures Heads(MessageOf(Run(START, events)).calls) == CallHeads(events)
  {
    hide CallHeads, Run;
    RunHeads(START, events);
    assert Heads([]) + CallHeads(events) == CallHeads(events);
  }

  // ----- opening and closing strings

  /** Closing a call closes an open string as well. */
  lemma CloseClosesString(st: State)
    requires Valid(st) && st.current == LastTool && CurrentCall(st).name != []
    ensures Step(Step(st, Event(ArgClose, [])), Event(ToolClose, [])) == Step(st, Event(ToolClose, []))
  {
    hide BraceDepth, Braces;
    var call := CurrentCall(st);
    var closed := if st.quotePending then call.arguments + "\"" else call.arguments;
    assert CurrentCall(Step(st, Event(ArgClose, []))) == call.(arguments := closed);
    assert closed + "" == closed;
  }

  /** When the next argument is opened, a string that was not closed stays open. */
  lemma OpenForgetsString(st: State)
    requires Valid(st) && (st.current == PendingTool || st.current == LastTool)
    ensures var after := Step(st, Event(ArgOpen, []));
            Step(after, Event(ArgClose, [])) == after && after == st.(quotePending := false)
  {
  }

  /** A call that is named again keeps its arguments. */
  lemma RenameKeepsArguments(st: State, e: Event)
    requires Valid(st) && st.current == LastTool && st.buffer == [] && CurrentCall(st).arguments != [] && e.tag == ToolName
    ensures CurrentCall(Step(st, e)) == CurrentCall(st).(name := TrimEnd(e.text)) && |Step(st, e).calls| == |st.calls|
  {
  }

  /** Closing a call closes its braces, however deep, unless the arguments end inside a string. */
  lemma CloseBalances(st: State)
    requires Valid(st) && st.current == LastTool && CurrentCall(st).name != [] && !st.quotePending
    requires var scan := ScanText(SCAN_START, CurrentCall(st).arguments); !scan.inString && !scan.escaped
    ensures var before, after := CurrentCall(st).arguments, CurrentCall(Step(st, Event(ToolClose, []))).arguments;
            && before <= after
            && BraceDepth(after) == (if BraceDepth(before) > 0 then 0 else BraceDepth(before))
            && (BraceDepth(before) <= 0 ==> after == before)
  {
    var before := CurrentCall(st).arguments;
    var n: nat := if BraceDepth(before) > 0 then BraceDepth(before) else 0;
    ClosedArguments(st, n);
    hide ScanText, Step, Braces;
    ScanConcat(SCAN_START, before, Braces(n));
    ScanBraces(ScanText(SCAN_START, before), n);
  }

  lemma ClosedArguments(st: State, n: nat)
    requires Valid(st) && st.current == LastTool && CurrentCall(st).name != [] && !st.quotePending
    requires n == if BraceDepth(CurrentCall(st).arguments) > 0 then BraceDepth(CurrentCall(st).arguments) else 0
    ensures var before := CurrentCall(st).arguments;
            && CurrentCall(Step(st, Event(ToolClose, []))).arguments == before + Braces(n)
            && (n == 0 ==> before + Braces(n) == before)
  {
    hide BraceDepth;
    var before := CurrentCall(st).arguments;
    assert before + "" == before && Braces(0) == [];
  }
}
