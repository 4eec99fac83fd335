/** Chat messages, the deltas between two versions of a message, and the ids pinned to tool calls. */
module ChatMessage {
  import opened Basics

  datatype ToolCall = ToolCall(name: string, arguments: string, id: string)

  datatype Message = Message(reasoning: string, content: string, calls: seq<ToolCall>)

  const EMPTY_CALL := ToolCall([], [], [])
  const EMPTY_MESSAGE := Message([], [], [])

  /** What one delta adds; the index says which tool call it is for, if any. */
  datatype Delta = Delta(reasoning: string, content: string, index: Option<nat>, call: ToolCall)

  datatype DiffError = NotAPrefix | FewerCalls | NameMismatch

  datatype Result<+T> = Ok(value: T) | Err(error: DiffError)

  /** The text added to `last`. Text taken back, as for an erased stop word, gives nothing; other changes are errors. */
  function StringDiff(last: string, current: string): Result<string> {
    if last == [] then Ok(current)
    else if last <= current then Ok(current[|last|..])
    else if current <= last then Ok([])
    else Err(NotAPrefix)
  }

  method ComputeDiffs(prev: Message, next: Message) returns (r: Result<seq<Delta>>)
    ensures r == Diffs(prev, next)
  {
    var diffs: seq<Delta> := [];
    if prev.reasoning != next.reasoning {
      var d := StringDiff(prev.reasoning, next.reasoning);
      if d.Err? {
        return Err(d.error);
      }
      diffs := diffs + [Delta(d.value, [], None, EMPTY_CALL)];
    }
    ghost var reasoning := TextDelta(prev.reasoning, next.reasoning, true).value;
    assert diffs == reasoning;
    if prev.content != next.content {
      var d := StringDiff(prev.content, next.content);
      if d.Err? {
        return Err(d.error);
      }
      diffs := diffs + [Delta([], d.value, None, EMPTY_CALL)];
    }
    ghost var content := TextDelta(prev.content, next.content, false).value;
    assert diffs == reasoning + content;
    if |next.calls| < |prev.calls| {
      return Err(FewerCalls);
    }
    ghost var call: seq<Delta> := [];
    if prev.calls != [] {
      var idx := |prev.calls| - 1;
      var prevCall, nextCall := prev.calls[idx], next.calls[idx];
      if prevCall.name != nextCall.name && prevCall.name != [] && nextCall.name != [] && !(prevCall.name <= nextCall.name) {
        return Err(NameMismatch);
      }
      var args := StringDiff(prevCall.arguments, nextCall.arguments);
      if args.Err? {
        return Err(args.error);
      }
      var renamed := prevCall.id != nextCall.id || prevCall.name != nextCall.name;
      call := CallDelta(prevCall, nextCall, idx).value;
      if args.value != [] || renamed {
        var changed := ToolCall(if renamed then nextCall.name else [], args.value, if renamed then nextCall.id else []);
        diffs := diffs + [Delta([], [], Some(idx), changed)];
      }
    }
    assert diffs == reasoning + content + call;
    ghost var changes := diffs;
    var idx := |prev.calls|;
    while idx < |next.calls|
      invariant |prev.calls| <= idx <= |next.calls|
      invariant diffs + NewCalls(next.calls, idx) == changes + NewCalls(next.calls, |prev.calls|)
    {
      AppendFirst(diffs, Delta([], [], Some(idx), next.calls[idx]), NewCalls(next.calls, idx + 1));
      diffs := diffs + [Delta([], [], Some(idx), next.calls[idx])];
      idx := idx + 1;
    }
    assert NewCalls(next.calls, idx) == [];
    assert diffs == reasoning + content + call + NewCalls(next.calls, |prev.calls|);
    r := Ok(diffs);
  }

  lemma AppendFirst(a: seq<Delta>, d: Delta, b: seq<Delta>)
    ensures a + ([d] + b) == (a + [d]) + b
  {
  }

  function TextDelta(prev: string, next: string, reasoning: bool): Result<seq<Delta>> {
    if prev == next then Ok([])
    else
      var d := StringDiff(prev, next);
      if d.Err? then Err(d.error)
      else Ok([if reasoning then Delta(d.value, [], None, EMPTY_CALL) else Delta([], d.value, None, EMPTY_CALL)])
  }

  /** The delta for the last call of the previous message. */
  function CallDelta(prevCall: ToolCall, nextCall: ToolCall, idx: nat): Result<seq<Delta>> {
    if prevCall.name != nextCall.name && prevCall.name != [] && nextCall.name != [] && !(prevCall.name <= nextCall.name)
    then Err(NameMismatch)
    else
      var args := StringDiff(prevCall.arguments, nextCall.arguments);
      if args.Err? then Err(args.error)
      else if args.value == [] && prevCall.id == nextCall.id && prevCall.name == nextCall.name then Ok([])
      else if prevCall.id == nextCall.id && prevCall.name == nextCall.name
      then Ok([Delta([], [], Some(idx), ToolCall([], args.value, []))])
      else Ok([Delta([], [], Some(idx), ToolCall(nextCall.name, args.value, nextCall.id))])
  }

  function NewCalls(calls: seq<ToolCall>, from: nat): seq<Delta>
    requires from <= |calls|
    decreases |calls| - from
  {
    if from == |calls| then [] else [Delta([], [], Some(from), calls[from])] + NewCalls(calls, from + 1)
  }

  function Diffs(prev: Message, next: Message): Result<seq<Delta>> {
    var reasoning := TextDelta(prev.reasoning, next.reasoning, true);
    if reasoning.Err? then reasoning else
    var content := TextDelta(prev.content, next.content, false);
    if content.Err? then content else
    if |next.calls| < |prev.calls| then Err(FewerCalls) else
    var call :=
      if prev.calls == [] then Ok([])
      else CallDelta(prev.calls[|prev.calls| - 1], next.calls[|prev.calls| - 1], |prev.calls| - 1);
    if call.Err? then call else
    Ok(reasoning.value + content.value + call.value + NewCalls(next.calls, |prev.calls|))
  }

  // ----- applying deltas

  /** What a client does with a delta: it appends texts and arguments and takes over a name or id that is given. */
  function ApplyDelta(m: Message, d: Delta): Message {
    var texts := m.(reasoning := m.reasoning + d.reasoning, content := m.content + d.content);
    match d.index
    case None => texts
    case Some(idx) =>
      if idx < |m.calls| then
        var current := m.calls[idx];
        texts.(calls := m.calls[idx := ToolCall(if d.call.name != [] then d.call.name else current.name,
                                                current.arguments + d.call.arguments,
                                                if d.call.id != [] then d.call.id else current.id)])
      else texts.(calls := m.calls + [d.call])
  }

  function Apply(m: Message, deltas: seq<Delta>): Message {
    if deltas == [] then m else ApplyDelta(Apply(m, deltas[..|deltas| - 1]), deltas[|deltas| - 1])
  }

  lemma {:induction false} ApplyConcat(m: Message, a: seq<Delta>, b: seq<Delta>)
    ensures Apply(m, a + b) == Apply(Apply(m, a), b)
  {
    if b == [] {
      assert a + b == a;
    } else {
      assert (a + b)[..|a + b| - 1] == a + b[..|b| - 1];
      ApplyConcat(m, a, b[..|b| - 1]);
    }
  }

  predicate CallExtends(a: ToolCall, b: ToolCall) {
    a.name <= b.name && a.arguments <= b.arguments && (b.id == [] ==> a.id == [])
  }

  /** Texts and the last call only grow, earlier calls stay, calls may be added. */
  predicate Extends(a: Message, b: Message) {
    && a.reasoning <= b.reasoning
    && a.content <= b.content
    && |a.calls| <= |b.calls|
    && (forall i :: 0 <= i < |a.calls| - 1 ==> a.calls[i] == b.calls[i])
    && (a.calls != [] ==> CallExtends(a.calls[|a.calls| - 1], b.calls[|a.calls| - 1]))
  }

  lemma {:induction false} ApplyNewCalls(m: Message, calls: seq<ToolCall>, from: nat)
    requires from <= |calls| && m.calls == calls[..from]
    ensures Apply(m, NewCalls(calls, from)) == m.(calls := calls)
    decreases |calls| - from
  {
    if from < |calls| {
      var d := Delta([], [], Some(from), calls[from]);
      var m' := ApplyDelta(m, d);
      assert Apply(m, [d]) == m' by {
        assert [d][..0] == [] && Apply(m, []) == m;
      }
      assert m'.reasoning == m.reasoning && m'.content == m.content;
      assert calls[..from] + [calls[from]] == calls[..from + 1];
      ApplyNewCalls(m', calls, from + 1);
      ApplyConcat(m, [d], NewCalls(calls, from + 1));
    } else {
      assert calls[..from] == calls;
    }
  }

  /** A call delta changes nothing but the call, and gives the new call exactly if the call was extended. */
  lemma ApplyCallDelta(m: Message, nextCall: ToolCall)
    requires m.calls != []
    requires CallDelta(m.calls[|m.calls| - 1], nextCall, |m.calls| - 1).Ok?
    ensures var idx := |m.calls| - 1;
            var after := Apply(m, CallDelta(m.calls[idx], nextCall, idx).value);
            && |after.calls| == |m.calls|
            && after == m.(calls := m.calls[idx := after.calls[idx]])
            && (after.calls[idx] == nextCall <==> CallExtends(m.calls[idx], nextCall))
  {
  }

  lemma ApplyTextDelta(m: Message, next: string, reasoning: bool)
    requires TextDelta(if reasoning then m.reasoning else m.content, next, reasoning).Ok?
    ensures var prev := if reasoning then m.reasoning else m.content;
            var after := Apply(m, TextDelta(prev, next, reasoning).value);
            && after == (if reasoning then m.(reasoning := after.reasoning) else m.(content := after.content))
            && ((if reasoning then after.reasoning else after.content) == next <==> prev <= next)
  {
  }

  /** The deltas exist and rebuild the new message exactly if the new message extends the previous one. */
  lemma DiffsRebuildIff(prev: Message, next: Message)
    ensures Diffs(prev, next).Ok? && Apply(prev, Diffs(prev, next).value) == next <==> Extends(prev, next)
  {
    if Extends(prev, next) {
      ExtendsHasDiffs(prev, next);
    }
    if Diffs(prev, next).Ok? {
      ApplyDiffs(prev, next);
      var n := |prev.calls|;
      var after := Apply(prev, Diffs(prev, next).value);
      if after == next {
        assert forall i :: 0 <= i < n - 1 ==> prev.calls[i] == after.calls[i];
      }
      if Extends(prev, next) {
        assert after.calls == next.calls;
      }
    }
  }

  /** Applying the deltas field by field. */
  lemma ApplyDiffs(prev: Message, next: Message)
    requires Diffs(prev, next).Ok?
    ensures var n := |prev.calls|;
            var after := Apply(prev, Diffs(prev, next).value);
            && n <= |next.calls| == |after.calls| && after.calls[n..] == next.calls[n..]
            && (forall i :: 0 <= i < n - 1 ==> after.calls[i] == prev.calls[i])
            && (n > 0 ==> (after.calls[n - 1] == next.calls[n - 1] <==> CallExtends(prev.calls[n - 1], next.calls[n - 1])))
            && (after.reasoning == next.reasoning <==> prev.reasoning <= next.reasoning)
            && (after.content == next.content <==> prev.content <= next.content)
  {
    hide TextDelta, CallDelta, NewCalls, Apply, CallExtends;
    var reasoning := TextDelta(prev.reasoning, next.reasoning, true).value;
    var content := TextDelta(prev.content, next.content, false).value;
    var n := |prev.calls|;
    ApplyTextDelta(prev, next.reasoning, true);
    var a := Apply(prev, reasoning);
    ApplyTextDelta(a, next.content, false);
    var b := Apply(a, content);
    var call := if n == 0 then [] else CallDelta(prev.calls[n - 1], next.calls[n - 1], n - 1).value;
    if n > 0 {
      ApplyCallDelta(b, next.calls[n - 1]);
    } else {
      ApplyNothing(b);
    }
    var c := Apply(b, call);
    ApplyAddedCalls(c, next.calls, n);
    ApplyConcat(prev, reasoning, content);
    ApplyConcat(prev, reasoning + content, call);
    ApplyConcat(prev, reasoning + content + call, NewCalls(next.calls, n));
  }

  lemma ApplyNothing(m: Message)
    ensures Apply(m, []) == m
  {
  }

  /** Added calls are appended to the calls already there. */
  lemma ApplyAddedCalls(m: Message, calls: seq<ToolCall>, from: nat)
    requires from <= |calls| && |m.calls| == from
    ensures Apply(m, NewCalls(calls, from)) == m.(calls := m.calls + calls[from..])
  {
    var all := m.calls + calls[from..];
    SameNewCalls(calls, all, from);
    assert all[..from] == m.calls;
    ApplyNewCalls(m, all, from);
  }

  lemma {:induction false} SameNewCalls(a: seq<ToolCall>, b: seq<ToolCall>, from: nat)
    requires |a| == |b| && from <= |a| && a[from..] == b[from..]
    ensures NewCalls(a, from) == NewCalls(b, from)
    decreases |a| - from
  {
    if from < |a| {
      assert a[from] == a[from..][0] == b[from..][0] == b[from];
      assert a[from + 1..] == a[from..][1..] == b[from..][1..] == b[from + 1..];
      SameNewCalls(a, b, from + 1);
    }
  }

  lemma ExtendsHasDiffs(prev: Message, next: Message)
    requires Extends(prev, next)
    ensures Diffs(prev, next).Ok?
  {
  }

  // ----- errors, and how many deltas there are

  /** Neither text is a beginning of the other. */
  predicate Unrelated(a: string, b: string) {
    !(a <= b) && !(b <= a)
  }

  /** Text that was added is the delta; text that was taken back gives an empty one; other changes are errors. */
  lemma StringDiffMeaning(last: string, current: string)
    ensures last <= current ==> StringDiff(last, current).Ok? && last + StringDiff(last, current).value == current
    ensures current <= last ==> StringDiff(last, current) == Ok([])
    ensures Unrelated(last, current) ==> StringDiff(last, current) == Err(NotAPrefix)
  {
  }

  /** Both calls are named, and the new name does not begin with the old one. */
  predicate Renamed(a: ToolCall, b: ToolCall) {
    a.name != [] && b.name != [] && !(a.name <= b.name)
  }

  /** Exactly when the deltas fail, and how, in the order of the checks. */
  lemma DiffsErrorIff(prev: Message, next: Message)
    ensures var r, last := Diffs(prev, next), |prev.calls| - 1;
            if Unrelated(prev.reasoning, next.reasoning) || Unrelated(prev.content, next.content) then r == Err(NotAPrefix)
            else if |next.calls| < |prev.calls| then r == Err(FewerCalls)
            else if last >= 0 && Renamed(prev.calls[last], next.calls[last]) then r == Err(NameMismatch)
            else if last >= 0 && Unrelated(prev.calls[last].arguments, next.calls[last].arguments) then r == Err(NotAPrefix)
            else r.Ok?
  {
    hide NewCalls;
  }

  /** The call has another id or another name, or more arguments. */
  predicate CallChanged(a: ToolCall, b: ToolCall) {
    a.id != b.id || a.name != b.name || (a.arguments <= b.arguments && a.arguments != b.arguments)
  }

  /** One delta for each text that is different, for the last call if it changed, and for each new call. */
  lemma DiffsCount(prev: Message, next: Message)
    requires Diffs(prev, next).Ok?
    ensures var last := |prev.calls| - 1;
            |Diffs(prev, next).value|
            == (if prev.reasoning != next.reasoning then 1 else 0) + (if prev.content != next.content then 1 else 0)
               + (if last >= 0 && CallChanged(prev.calls[last], next.calls[last]) then 1 else 0)
               + |next.calls| - |prev.calls|
  {
    hide NewCalls;
    NewCallsCount(next.calls, |prev.calls|);
  }

  /** Reasoning comes first, then content, then the last call, then the new calls in order, each as a whole. */
  lemma DiffsOrder(prev: Message, next: Message)
    requires Diffs(prev, next).Ok?
    ensures var d, n := Diffs(prev, next).value, |next.calls| - |prev.calls|;
            var texts := (if prev.reasoning != next.reasoning then 1 else 0) + (if prev.content != next.content then 1 else 0);
            && 0 <= n && texts + n <= |d|
            && (forall i :: 0 <= i < |d| ==> (d[i].index.None? <==> i < texts))
            && (prev.reasoning != next.reasoning ==> d[0].content == [])
            && (prev.content != next.content ==> d[texts - 1].reasoning == [])
            && (forall i :: texts <= i < |d| - n ==> d[i].index == Some(|prev.calls| - 1))
            && (forall i :: |d| - n <= i < |d| ==>
                  var k := i - |d| + |next.calls|; d[i] == Delta([], [], Some(k), next.calls[k]))
  {
    NewCallsAre(next.calls, |prev.calls|);
    hide NewCalls;
  }

  lemma {:induction false} NewCallsAre(calls: seq<ToolCall>, from: nat)
    requires from <= |calls|
    ensures |NewCalls(calls, from)| == |calls| - from
    ensures forall i :: 0 <= i < |calls| - from ==>
      NewCalls(calls, from)[i] == Delta([], [], Some(from + i), calls[from + i])
    decreases |calls| - from
  {
    if from < |calls| {
      NewCallsAre(calls, from + 1);
      var later := NewCalls(calls, from + 1);
      assert NewCalls(calls, from) == [Delta([], [], Some(from), calls[from])] + later;
      hide NewCalls;
      forall i | 0 < i < |calls| - from
        ensures NewCalls(calls, from)[i] == Delta([], [], Some(from + i), calls[from + i])
      {
        assert NewCalls(calls, from)[i] == later[i - 1];
      }
    }
  }

  lemma {:induction false} NewCallsCount(calls: seq<ToolCall>, from: nat)
    requires from <= |calls|
    ensures |NewCalls(calls, from)| == |calls| - from
    decreases |calls| - from
  {
    if from < |calls| {
      NewCallsCount(calls, from + 1);
    }
  }

  // ----- ids

  /** Replaces the ids of the calls by the pinned ones; calls seen for the first time are pinned to their id or a new one. */
  method SetToolCallIds(m: Message, cache: seq<string>, freshIds: seq<string>) returns (pinned: Message, ids: seq<string>)
    requires |cache| + |freshIds| >= |m.calls|
    ensures |ids| == if |cache| < |m.calls| then |m.calls| else |cache|
    ensures pinned == m.(calls := Pinned(m.calls, ids)) && cache <= ids
    ensures forall i :: |cache| <= i < |ids| ==> ids[i] == if m.calls[i].id != [] then m.calls[i].id else freshIds[i - |cache|]
  {
    ids := cache;
    var calls := m.calls;
    var i := 0;
    while i < |calls|
      invariant 0 <= i <= |calls| == |m.calls| && cache <= ids
      invariant |ids| == if |cache| < i then i else |cache|
      invariant forall k :: 0 <= k < |calls| ==> calls[k] == if k < i then m.calls[k].(id := ids[k]) else m.calls[k]
      invariant forall k :: |cache| <= k < |ids| ==>
        ids[k] == if m.calls[k].id != [] then m.calls[k].id else freshIds[k - |cache|]
    {
      if |ids| <= i {
        ids := ids + [if calls[i].id != [] then calls[i].id else freshIds[i - |cache|]];
      }
      calls := calls[i := calls[i].(id := ids[i])];
      i := i + 1;
    }
    pinned := m.(calls := calls);
  }

  /** Only the ids change, to the pinned ones in order. */
  lemma PinnedMeaning(calls: seq<ToolCall>, ids: seq<string>, i: nat)
    requires |calls| <= |ids| && i < |calls|
    ensures var call := Pinned(calls, ids)[i];
            call.id == ids[i] && call.name == calls[i].name && call.arguments == calls[i].arguments
  {
  }

  function Pinned(calls: seq<ToolCall>, ids: seq<string>): (pinned: seq<ToolCall>)
    requires |calls| <= |ids|
    ensures |pinned| == |calls|
  {
    seq(|calls|, i requires 0 <= i < |calls| => calls[i].(id := ids[i]))
  }
}
