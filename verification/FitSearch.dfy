/** Filling one device with full layers by the method of false position, and when that search does not end. */
module FitSearch {
  import opened Basics
  import opened FitLayers
  import opened FitSteps

  /** The allocation, where overflow goes, the memory it was measured to use, and the first device with dense-only layers. */
  datatype State = State(alloc: seq<Layers>, buffers: seq<Buffer>, mem: seq<int>, dense: nat)

  /** An accepted test for device `id`; an overflow test also loads the next device. */
  datatype Accepted = Accepted(id: nat, alloc: seq<Layers>, buffers: seq<Buffer>, overflow: bool)

  /** The ways in which the conversion, or a part of it, may end; `left` is the distance that a search does not close. */
  datatype Outcome =
    | Converted(state: State)
    | DivisionByZero(id: nat, state: State)
    | PartUnderflow(id: nat, state: State)
    | PastLastDevice(id: nat, state: State, left: int)

  ghost predicate Consistent(s: State, probe: Probe) {
    && |s.buffers| == |s.alloc|
    && s.mem == Measure(probe, s.alloc, s.buffers)
  }

  // ----- the accepted tests

  ghost predicate Within(a: Accepted, targets: seq<int>, probe: Probe) {
    && a.id < |targets|
    && (!a.overflow ==> probe(a.alloc, a.buffers, a.id) <= targets[a.id])
    && (a.overflow ==> probe(a.alloc, a.buffers, a.id) < targets[a.id]
                       && (a.id + 1 < |targets| ==> probe(a.alloc, a.buffers, a.id + 1) < targets[a.id + 1]))
  }

  /**
    The accepted tests, device by device, lead from `before` to `after`, each keeping the layers and each measured within
    the targets of the device it was accepted for.
   */
  ghost predicate Log(log: seq<Accepted>, before: State, after: State, targets: seq<int>, probe: Probe) {
    && (forall k :: 0 <= k < |log| ==> Within(log[k], targets, probe) && Keeps(before.alloc, log[k].alloc))
    && (forall i, k :: 0 <= i < k < |log| ==> log[i].id <= log[k].id)
    && (if log == [] then after.alloc == before.alloc && after.buffers == before.buffers
        else after.alloc == log[|log| - 1].alloc && after.buffers == log[|log| - 1].buffers)
  }

  /** All tests were accepted while device `id` was filled. */
  predicate OfDevice(log: seq<Accepted>, id: nat) {
    forall k :: 0 <= k < |log| ==> log[k].id == id
  }

  lemma LogAppend(log: seq<Accepted>, log': seq<Accepted>, a: State, b: State, c: State, id: nat, targets: seq<int>, probe: Probe)
    requires Log(log, a, b, targets, probe) && Log(log', b, c, targets, probe) && Keeps(a.alloc, b.alloc)
    requires OfDevice(log', id) && forall k :: 0 <= k < |log| ==> log[k].id <= id
    ensures Log(log + log', a, c, targets, probe) && forall k :: 0 <= k < |log + log'| ==> (log + log')[k].id <= id
  {
    hide Within;
    forall k | 0 <= k < |log'|
      ensures Keeps(a.alloc, log'[k].alloc)
    {
      KeepsOn(a.alloc, b.alloc, log'[k].alloc);
    }
  }

  lemma LogAccept(log: seq<Accepted>, s: State, cur: State, a: Accepted, next: State, targets: seq<int>, probe: Probe)
    requires Log(log, s, cur, targets, probe) && Within(a, targets, probe) && Keeps(s.alloc, a.alloc) && OfDevice(log, a.id)
    requires next.alloc == a.alloc && next.buffers == a.buffers
    ensures Log(log + [a], s, next, targets, probe) && OfDevice(log + [a], a.id)
  {
    hide Within, Keeps;
  }

  lemma LogNothing(s: State, id: nat, targets: seq<int>, probe: Probe)
    ensures Log([], s, s, targets, probe) && OfDevice([], id)
  {
  }

  // ----- the search as a function of its bounds

  /** The state after a test that converts `step` more layers. */
  function TestOf(cur: State, id: nat, step: nat, probe: Probe): (t: State)
    requires id < |cur.alloc| && id <= cur.dense <= |cur.alloc| && WellFormed(cur.alloc)
    ensures |t.alloc| == |t.mem| == |cur.alloc| && cur.dense <= t.dense <= |cur.alloc| && WellFormed(t.alloc)
  {
    var t := Steps(cur.alloc, id, cur.dense, step);
    State(t.alloc, cur.buffers, Measure(probe, t.alloc, cur.buffers), t.dense)
  }

  /** The search between a state and an allocation that was measured not to fit. */
  function Search(cur: State, high: seq<Layers>, id: nat, target: int, probe: Probe): Outcome
    requires id < |cur.alloc| == |cur.mem| == |high| && id <= cur.dense < |cur.alloc| && WellFormed(cur.alloc)
    decreases high[id].Full() - cur.alloc[id].Full()
  {
    var delta := high[id].Full() - cur.alloc[id].Full();
    if delta <= 1 then Converted(cur)
    else if probe(high, cur.buffers, id) == cur.mem[id] then DivisionByZero(id, cur)
    else
      var step := StepSize(delta, target, cur.mem[id], probe(high, cur.buffers, id));
      var test := TestOf(cur, id, step, probe);
      StepsEffect(cur.alloc, id, cur.dense, step);
      if test.mem[id] <= target then
        if test.dense == |cur.alloc| then PastLastDevice(id, test, high[id].Full() - test.alloc[id].Full())
        else Search(test, high, id, target, probe)
      else Search(cur, test.alloc, id, target, probe)
  }

  /** The whole search: everything is converted if that fits. */
  function SearchFrom(s: State, id: nat, target: int, probe: Probe): Outcome
    requires |s.mem| == |s.alloc| && Untouched(s.alloc, s.dense, id)
  {
    var high := UpperBound(s.alloc, id, s.dense);
    if probe(high, s.buffers, id) <= target then
      Converted(State(high, s.buffers, Measure(probe, high, s.buffers), |s.alloc| - 1))
    else Search(s, high, id, target, probe)
  }

  // ----- what every search keeps

  /** What holds of the lower bound of the search, from the state `s` on. */
  ghost predicate Searching(s: State, cur: State, id: nat, target: int, probe: Probe) {
    var nd := |s.alloc|;
    && cur.buffers == s.buffers && Consistent(cur, probe) && Keeps(s.alloc, cur.alloc) && WellFormed(cur.alloc)
    && id <= s.dense <= cur.dense < nd == |cur.alloc| && Ready(cur.alloc, cur.dense, id)
    && (cur == s || (cur.mem[id] <= target && cur.alloc[cur.dense].nPart > 0))
    && (forall j :: s.dense <= j < cur.dense ==> cur.alloc[j].nPart == 0)
    && (forall j :: 0 <= j < nd && j != id ==> cur.alloc[j].Full() == s.alloc[j].Full())
  }

  /**
    The refused allocation is the one that a test of `delta` layers gives, or, while the bounds count full layers that no
    test converts, the upper bound.
   */
  ghost predicate Refused(s: State, cur: State, high: seq<Layers>, id: nat, target: int, probe: Probe)
    requires Searching(s, cur, id, target, probe) && Untouched(s.alloc, s.dense, id) && |high| == |s.alloc|
  {
    var delta, part := high[id].Full() - cur.alloc[id].Full(), PartFrom(cur.alloc, cur.dense);
    && target < probe(high, s.buffers, id)
    && (|| (0 <= delta <= part && (delta == 0 ==> part == 0) && high == Steps(cur.alloc, id, cur.dense, delta).alloc)
        || (0 < Uncounted(s.alloc, id) && high == UpperBound(s.alloc, id, s.dense) && delta == part + Uncounted(s.alloc, id)))
  }

  /** Either one more layer was measured not to fit, or there was nothing to convert. */
  ghost predicate Stopped(s: State, cur: State, id: nat, target: int, probe: Probe) {
    && id < |cur.alloc| && id <= cur.dense < |cur.alloc| && s.dense <= |s.alloc| && WellFormed(cur.alloc)
    && (|| (PartFrom(cur.alloc, cur.dense) > 0 && target < probe(Steps(cur.alloc, id, cur.dense, 1).alloc, cur.buffers, id))
        || (cur == s && PartFrom(s.alloc, s.dense) == 0))
  }

  /** How a search from `s` on may end. */
  ghost predicate Ends(s: State, r: Outcome, id: nat, target: int, probe: Probe)
    requires id < |s.alloc| == |s.mem|
  {
    match r
    case Converted(end) => Searching(s, end, id, target, probe) && Stopped(s, end, id, target, probe)
    case DivisionByZero(d, end) => d == id && end == s && target < s.mem[id]
    case PartUnderflow(_, _) => false
    case PastLastDevice(d, end, left) =>
      && d == id && 0 < Uncounted(s.alloc, id) == left && end.dense == |s.alloc| == |end.alloc| == |end.mem|
      && Consistent(end, probe) && Keeps(s.alloc, end.alloc) && end.buffers == s.buffers && end.mem[id] <= target
      && forall j :: s.dense <= j < |s.alloc| ==> end.alloc[j].nPart == 0
  }

  lemma StillReady(before: seq<Layers>, after: seq<Layers>, dense: nat, denseAfter: nat, id: nat)
    requires |after| == |before| && WellFormed(after) && Ready(before, dense, id) && dense <= denseAfter
    requires forall j :: 0 <= j < |before| && j != id ==> after[j].Full() == before[j].Full()
    ensures Ready(after, denseAfter, id)
  {
  }

  /** Devices behind the conversion point after a test. */
  lemma TestShape(s: State, cur: State, t: Test, id: nat)
    requires id <= s.dense <= cur.dense <= t.dense <= |s.alloc| == |cur.alloc| == |t.alloc| && cur.dense < |s.alloc|
    requires Ready(cur.alloc, cur.dense, id) && StepsOthers(cur.alloc, id, cur.dense, t) && WellFormed(t.alloc)
    requires forall j :: s.dense <= j < cur.dense ==> cur.alloc[j].nPart == 0
    ensures Ready(t.alloc, t.dense, id)
    ensures forall j :: s.dense <= j < t.dense ==> t.alloc[j].nPart == 0
    ensures forall j :: 0 <= j < |s.alloc| && j != id ==> t.alloc[j].Full() == cur.alloc[j].Full()
  {
    StillReady(cur.alloc, t.alloc, cur.dense, t.dense, id);
    forall j | s.dense <= j < t.dense
      ensures t.alloc[j].nPart == 0
    {
      if j < cur.dense {
        assert j == id || t.alloc[j] == cur.alloc[j];
      }
    }
  }

  /** An accepted test that does not run past the last device is again a lower bound. */
  lemma TestSearching(s: State, cur: State, id: nat, step: nat, target: int, probe: Probe)
    requires Searching(s, cur, id, target, probe)
    ensures var t := TestOf(cur, id, step, probe);
            && Consistent(t, probe) && Keeps(s.alloc, t.alloc) && t.buffers == s.buffers
            && (t.dense < |s.alloc| && t.mem[id] <= target ==> Searching(s, t, id, target, probe))
            && (t.dense == |s.alloc| ==> forall j :: s.dense <= j < |s.alloc| ==> t.alloc[j].nPart == 0)
  {
    hide Steps, PartFrom, Keeps, StepsOthers, Ready;
    var t := Steps(cur.alloc, id, cur.dense, step);
    StepsEffect(cur.alloc, id, cur.dense, step);
    KeepsOn(s.alloc, cur.alloc, t.alloc);
    TestShape(s, cur, t, id);
  }

  lemma LowerBound(s: State, cur: State, id: nat, target: int, probe: Probe)
    requires Searching(s, cur, id, target, probe)
    ensures |cur.alloc| == |cur.mem| == |s.alloc| && id <= s.dense <= cur.dense < |s.alloc| && cur.buffers == s.buffers
    ensures WellFormed(cur.alloc) && Consistent(cur, probe) && Keeps(s.alloc, cur.alloc) && Ready(cur.alloc, cur.dense, id)
    ensures cur == s || (cur.mem[id] <= target && cur.alloc[cur.dense].nPart > 0 && PartFrom(cur.alloc, cur.dense) > 0)
    ensures id < |s.alloc| - 1 ==> cur.alloc[|s.alloc| - 1].Full() == s.alloc[|s.alloc| - 1].Full()
  {
  }

  /** A rejected test becomes the upper bound. */
  lemma AfterRejected(s: State, cur: State, id: nat, step: nat, target: int, probe: Probe)
    requires Untouched(s.alloc, s.dense, id) && Searching(s, cur, id, target, probe) && 1 <= step
    requires TestOf(cur, id, step, probe).mem[id] > target
    ensures Refused(s, cur, TestOf(cur, id, step, probe).alloc, id, target, probe)
  {
    hide Steps, PartFrom, Keeps, UpperBound, Searching, Untouched, Ready;
    LowerBound(s, cur, id, target, probe);
    StepsEffect(cur.alloc, id, cur.dense, step);
    if PartFrom(cur.alloc, cur.dense) <= step {
      StepsSaturate(cur.alloc, id, cur.dense, step);
    }
  }

  /** An accepted test becomes the lower bound. */
  lemma AfterAccepted(s: State, cur: State, high: seq<Layers>, id: nat, step: nat, target: int, probe: Probe)
    requires Untouched(s.alloc, s.dense, id) && Searching(s, cur, id, target, probe) && |high| == |s.alloc|
    requires Refused(s, cur, high, id, target, probe) && 1 <= step < high[id].Full() - cur.alloc[id].Full()
    requires var t := TestOf(cur, id, step, probe); t.mem[id] <= target && t.dense < |s.alloc|
    ensures Searching(s, TestOf(cur, id, step, probe), id, target, probe)
    ensures Refused(s, TestOf(cur, id, step, probe), high, id, target, probe)
  {
    hide Steps, PartFrom, Keeps, UpperBound, Searching, Untouched, Ready;
    LowerBound(s, cur, id, target, probe);
    TestSearching(s, cur, id, step, target, probe);
    StepsEffect(cur.alloc, id, cur.dense, step);
    StepsCompose(cur.alloc, id, cur.dense, step, high[id].Full() - cur.alloc[id].Full() - step);
  }

  /** A test that runs past the last device leaves the full layers that no test converts between the bounds. */
  lemma PastIsUncounted(s: State, cur: State, high: seq<Layers>, id: nat, step: nat, target: int, probe: Probe)
    requires Untouched(s.alloc, s.dense, id) && Searching(s, cur, id, target, probe) && |high| == |s.alloc|
    requires Refused(s, cur, high, id, target, probe) && 1 <= step < high[id].Full() - cur.alloc[id].Full()
    requires TestOf(cur, id, step, probe).dense == |s.alloc|
    ensures 0 < Uncounted(s.alloc, id) == high[id].Full() - TestOf(cur, id, step, probe).alloc[id].Full()
  {
    hide Steps, PartFrom, Keeps, UpperBound, Searching, Untouched, Ready;
    LowerBound(s, cur, id, target, probe);
    StepsEffect(cur.alloc, id, cur.dense, step);
  }

  /** Where the bounds meet. */
  lemma BoundsMeet(s: State, cur: State, high: seq<Layers>, id: nat, target: int, probe: Probe)
    requires Untouched(s.alloc, s.dense, id) && Searching(s, cur, id, target, probe) && |high| == |s.alloc|
    requires Refused(s, cur, high, id, target, probe)
    ensures high[id].Full() - cur.alloc[id].Full() <= 1 ==> Stopped(s, cur, id, target, probe)
    ensures probe(high, cur.buffers, id) == cur.mem[id] ==> cur == s && target < s.mem[id]
  {
    hide Steps, PartFrom, Keeps, UpperBound, Searching, Untouched, Ready;
    LowerBound(s, cur, id, target, probe);
  }

  /** A search ends just below an allocation that was measured not to fit, or it cannot end. */
  lemma {:induction false} SearchEnds(s: State, cur: State, high: seq<Layers>, id: nat, target: int, probe: Probe)
    requires Untouched(s.alloc, s.dense, id) && Searching(s, cur, id, target, probe) && |high| == |s.alloc|
    requires Refused(s, cur, high, id, target, probe) && |s.mem| == |s.alloc|
    ensures Ends(s, Search(cur, high, id, target, probe), id, target, probe)
    decreases high[id].Full() - cur.alloc[id].Full()
  {
    hide Steps, PartFrom, Keeps, Searching, StepSize, Refused, Consistent, Stopped, Untouched, Ready, TestOf, WellFormed;
    LowerBound(s, cur, id, target, probe);
    BoundsMeet(s, cur, high, id, target, probe);
    var delta := high[id].Full() - cur.alloc[id].Full();
    if delta > 1 && probe(high, cur.buffers, id) != cur.mem[id] {
      var step := StepSize(delta, target, cur.mem[id], probe(high, cur.buffers, id));
      var test := TestOf(cur, id, step, probe);
      TestSearching(s, cur, id, step, target, probe);
      TestMoves(cur, id, step, probe);
      if test.mem[id] > target {
        AfterRejected(s, cur, id, step, target, probe);
        SearchEnds(s, cur, test.alloc, id, target, probe);
      } else if test.dense < |s.alloc| {
        AfterAccepted(s, cur, high, id, step, target, probe);
        SearchEnds(s, test, high, id, target, probe);
      } else {
        PastIsUncounted(s, cur, high, id, step, target, probe);
      }
    }
  }

  /** The distance between the bounds shrinks with every test. */
  lemma TestMoves(cur: State, id: nat, step: nat, probe: Probe)
    requires id < |cur.alloc| && id <= cur.dense <= |cur.alloc| && WellFormed(cur.alloc)
    ensures var t := TestOf(cur, id, step, probe);
            && cur.alloc[id].Full() <= t.alloc[id].Full() <= cur.alloc[id].Full() + step
            && (t.dense < |cur.alloc| ==> t.alloc[id].Full() == cur.alloc[id].Full() + step)
  {
    hide Steps, Keeps, StepsOthers;
    StepsEffect(cur.alloc, id, cur.dense, step);
  }

  /** The search starts between the state itself and the upper bound. */
  lemma SearchStarts(s: State, id: nat, target: int, probe: Probe)
    requires Untouched(s.alloc, s.dense, id) && Consistent(s, probe) && target < probe(UpperBound(s.alloc, id, s.dense), s.buffers, id)
    ensures Searching(s, s, id, target, probe) && Refused(s, s, UpperBound(s.alloc, id, s.dense), id, target, probe)
  {
    hide Steps, PartFrom;
    KeepsItself(s.alloc);
    if Uncounted(s.alloc, id) == 0 {
      UpperBoundIsTest(s.alloc, id, s.dense);
    }
  }

  /** A search that ends leaves a device to take layers from. */
  lemma SearchShape(s: State, id: nat, target: int, probe: Probe)
    requires Consistent(s, probe) && Untouched(s.alloc, s.dense, id)
    ensures var r := SearchFrom(s, id, target, probe);
            r.Converted? ==> id <= r.state.dense < |r.state.alloc| == |r.state.buffers| == |s.alloc|
  {
    hide Search, Searching, Refused, Stopped, Steps, Keeps;
    var high := UpperBound(s.alloc, id, s.dense);
    if target < probe(high, s.buffers, id) {
      SearchStarts(s, id, target, probe);
      SearchEnds(s, s, high, id, target, probe);
      var r := Search(s, high, id, target, probe);
      if r.Converted? {
        LowerBound(s, r.state, id, target, probe);
      }
    }
  }

  /** The search never goes below an accepted number of full layers nor up to a refused one. */
  lemma {:induction false} SearchBetween(cur: State, high: seq<Layers>, id: nat, target: int, probe: Probe)
    requires id < |cur.alloc| == |cur.mem| == |high| && id <= cur.dense < |cur.alloc| && WellFormed(cur.alloc)
    ensures var r := Search(cur, high, id, target, probe);
            r.Converted? ==> && |r.state.alloc| == |cur.alloc| && cur.alloc[id].Full() <= r.state.alloc[id].Full()
                             && (r.state.alloc[id].Full() == cur.alloc[id].Full()
                                 || r.state.alloc[id].Full() < high[id].Full())
    decreases high[id].Full() - cur.alloc[id].Full()
  {
    hide StepSize, TestOf, WellFormed;
    var delta := high[id].Full() - cur.alloc[id].Full();
    if delta > 1 && probe(high, cur.buffers, id) != cur.mem[id] {
      var step := StepSize(delta, target, cur.mem[id], probe(high, cur.buffers, id));
      var test := TestOf(cur, id, step, probe);
      TestMoves(cur, id, step, probe);
      if test.mem[id] > target {
        SearchBetween(cur, test.alloc, id, target, probe);
      } else if test.dense < |cur.alloc| {
        SearchBetween(test, high, id, target, probe);
      }
    }
  }

  /**
    The first test converts the interpolated number of layers: if it is within the target the device gets at least as many
    full layers, and otherwise fewer, unless the search runs past the last device.
   */
  lemma FirstTestDecides(s: State, id: nat, target: int, probe: Probe)
    requires Consistent(s, probe) && Untouched(s.alloc, s.dense, id) && 1 < PartFrom(s.alloc, s.dense) + Uncounted(s.alloc, id)
    requires target < probe(UpperBound(s.alloc, id, s.dense), s.buffers, id) != s.mem[id]
    ensures var delta := PartFrom(s.alloc, s.dense) + Uncounted(s.alloc, id);
            var step := StepSize(delta, target, s.mem[id], probe(UpperBound(s.alloc, id, s.dense), s.buffers, id));
            var test := Steps(s.alloc, id, s.dense, step);
            var r := SearchFrom(s, id, target, probe);
            && (r.Converted? ==> |r.state.alloc| == |s.alloc|)
            && (r.Converted? && test.dense < |s.alloc| ==>
                  (probe(test.alloc, s.buffers, id) <= target <==> s.alloc[id].Full() + step <= r.state.alloc[id].Full()))
            && (test.dense == |s.alloc| && probe(test.alloc, s.buffers, id) <= target ==> r.PastLastDevice?)
  {
    hide StepSize, Search, Steps, PartFrom, Keeps;
    var high := UpperBound(s.alloc, id, s.dense);
    var step := StepSize(high[id].Full() - s.alloc[id].Full(), target, s.mem[id], probe(high, s.buffers, id));
    var test := TestOf(s, id, step, probe);
    TestMoves(s, id, step, probe);
    SearchStarts(s, id, target, probe);
    SearchNext(s, s, high, id, target, probe);
    SearchBetween(s, test.alloc, id, target, probe);
    if test.dense < |s.alloc| {
      SearchBetween(test, high, id, target, probe);
    }
  }

  // ----- when a search divides by zero

  /** With at least two layers between the bounds, both are measured the same, above the target. */
  ghost predicate AlwaysOver(s: State, id: nat, target: int, probe: Probe)
    requires |s.mem| == |s.alloc| && Untouched(s.alloc, s.dense, id)
  {
    && 1 < PartFrom(s.alloc, s.dense) + Uncounted(s.alloc, id)
    && target < s.mem[id] == probe(UpperBound(s.alloc, id, s.dense), s.buffers, id)
  }

  /** Then the first step divides by zero; with fewer layers between the bounds no step does. */
  lemma SearchDivides(s: State, id: nat, target: int, probe: Probe)
    requires |s.mem| == |s.alloc| && Untouched(s.alloc, s.dense, id)
    ensures AlwaysOver(s, id, target, probe) ==> SearchFrom(s, id, target, probe) == DivisionByZero(id, s)
    ensures SearchFrom(s, id, target, probe).DivisionByZero? ==> 1 < PartFrom(s.alloc, s.dense) + Uncounted(s.alloc, id)
  {
    hide PartFrom, StepSize, TestOf;
  }

  /** Whether a search from this allocation divides by zero, for a measurement and a target. */
  predicate Divides(alloc: seq<Layers>, buffers: seq<Buffer>, dense: nat, id: nat, target: int, probe: Probe)
    requires Untouched(alloc, dense, id)
  {
    SearchFrom(State(alloc, buffers, Measure(probe, alloc, buffers), dense), id, target, probe).DivisionByZero?
  }

  function AlwaysOne(): Probe {
    (alloc, buffers, id) => 1
  }

  /**
    There is a measurement and a target for which the search divides by zero exactly if there are at least two layers
    between the bounds.
   */
  lemma DividesIff(alloc: seq<Layers>, buffers: seq<Buffer>, dense: nat, id: nat)
    requires Untouched(alloc, dense, id)
    ensures (exists target: int, probe: Probe :: Divides(alloc, buffers, dense, id, target, probe))
            <==> 1 < PartFrom(alloc, dense) + Uncounted(alloc, id)
  {
    hide PartFrom, SearchFrom;
    SearchDivides(State(alloc, buffers, Measure(AlwaysOne(), alloc, buffers), dense), id, 0, AlwaysOne());
    assert 1 < PartFrom(alloc, dense) + Uncounted(alloc, id) ==> Divides(alloc, buffers, dense, id, 0, AlwaysOne());
    forall target: int, probe: Probe | Divides(alloc, buffers, dense, id, target, probe)
      ensures 1 < PartFrom(alloc, dense) + Uncounted(alloc, id)
    {
      SearchDivides(State(alloc, buffers, Measure(probe, alloc, buffers), dense), id, target, probe);
    }
  }

  // ----- the loop

  /** What the conversion relies on after a search. */
  ghost predicate Filled(s: State, end: State, id: nat, target: int, probe: Probe) {
    var nd := |s.alloc|;
    && nd == |end.alloc| == |end.mem| && end.buffers == s.buffers && Consistent(end, probe) && Keeps(s.alloc, end.alloc)
    && id < nd && s.dense <= end.dense < nd && Ready(end.alloc, end.dense, id) && (end == s || end.mem[id] <= target)
    && (forall j :: 0 <= j < nd - 1 && j != id ==> end.alloc[j].Full() == s.alloc[j].Full())
    && (id < nd - 1 ==> end.alloc[nd - 1].Full() <= s.alloc[nd - 1].Full())
  }

  lemma FilledAfter(s: State, end: State, id: nat, target: int, probe: Probe)
    requires Untouched(s.alloc, s.dense, id)
    requires || Searching(s, end, id, target, probe)
             || (end == State(UpperBound(s.alloc, id, s.dense), s.buffers, Measure(probe, UpperBound(s.alloc, id, s.dense), s.buffers),
                              |s.alloc| - 1)
                 && Consistent(s, probe) && Keeps(s.alloc, end.alloc) && end.mem[id] <= target)
    ensures Filled(s, end, id, target, probe)
  {
    hide Steps, PartFrom;
  }

  /**
    Fills device `id` with full layers by false position. The device ends with all layers there are, or just below an
    allocation with one more that was measured not to fit, unless there was nothing to convert. If the last device has more
    than one full layer, a test that converts everything may be accepted before the bounds meet; the index of the first
    device with dense-only layers is then past the last device.
   */
  method SearchDevice(s: State, id: nat, targets: seq<int>, probe: Probe) returns (r: Outcome, ghost log: seq<Accepted>)
    requires |s.alloc| == |targets| && Consistent(s, probe) && Untouched(s.alloc, s.dense, id)
    ensures r == SearchFrom(s, id, targets[id], probe) && !r.PartUnderflow?
    ensures r.Converted? ==> Filled(s, r.state, id, targets[id], probe) && Log(log, s, r.state, targets, probe) && OfDevice(log, id)
    ensures r.Converted? ==> || r.state.alloc == UpperBound(s.alloc, id, s.dense)
                             || Stopped(s, r.state, id, targets[id], probe)
    ensures r.DivisionByZero? ==> r.id == id && r.state == s && targets[id] < s.mem[id]
    ensures r.DivisionByZero? ==> 1 < PartFrom(s.alloc, s.dense) + Uncounted(s.alloc, id)
    ensures AlwaysOver(s, id, targets[id], probe) ==> r.DivisionByZero?
    ensures r.PastLastDevice? ==> Ends(s, r, id, targets[id], probe)
  {
    hide PartFrom, AlwaysOver, StepSize, Log, Keeps, Ready, Searching, Filled, Stopped, Refused, Steps, Ends, Untouched;
    hide Search, TestOf, UpperBound, OutputFull;
    LogNothing(s, id, targets, probe);
    AtLeastTheDevice(s, id);
    SearchDivides(s, id, targets[id], probe);
    var nd := |s.alloc|;
    var high := MoveAll(s.alloc, id, s.dense);
    var memHigh := Measure(probe, high, s.buffers);
    if memHigh[id] <= targets[id] {
      r := Converted(State(high, s.buffers, memHigh, nd - 1));
      LogAccept([], s, s, Accepted(id, high, s.buffers, false), r.state, targets, probe);
      log := [] + [Accepted(id, high, s.buffers, false)];
      FilledAfter(s, r.state, id, targets[id], probe);
      return;
    }
    var cur := s;
    log := [];
    SearchStarts(s, id, targets[id], probe);
    SearchEnds(s, s, high, id, targets[id], probe);
    SearchMeans(s, high, id, targets[id], probe);
    LowerBound(s, cur, id, targets[id], probe);
    var delta := high[id].Full() - cur.alloc[id].Full();
    while delta > 1
      invariant |high| == |memHigh| == nd && memHigh[id] == probe(high, s.buffers, id)
      invariant Searching(s, cur, id, targets[id], probe) && Refused(s, cur, high, id, targets[id], probe)
      invariant |cur.alloc| == |cur.mem| == nd && id <= cur.dense < nd && WellFormed(cur.alloc) && cur.buffers == s.buffers
      invariant delta == high[id].Full() - cur.alloc[id].Full()
      invariant Log(log, s, cur, targets, probe) && OfDevice(log, id)
      invariant Search(cur, high, id, targets[id], probe) == SearchFrom(s, id, targets[id], probe)
    {
      SearchNext(s, cur, high, id, targets[id], probe);
      if memHigh[id] == cur.mem[id] {
        BoundsMeet(s, cur, high, id, targets[id], probe);
        return DivisionByZero(id, cur), log;
      }
      var step := StepSize(delta, targets[id], cur.mem[id], memHigh[id]);
      var alloc, dense := ConvertSteps(cur.alloc, id, cur.dense, step);
      var test := State(alloc, cur.buffers, Measure(probe, alloc, cur.buffers), dense);
      TestIs(cur, id, step, probe, test);
      TestSearching(s, cur, id, step, targets[id], probe);
      TestMoves(cur, id, step, probe);
      if test.mem[id] <= targets[id] {
        LogAccept(log, s, cur, Accepted(id, test.alloc, test.buffers, false), test, targets, probe);
        log := log + [Accepted(id, test.alloc, test.buffers, false)];
        if dense == nd {
          return PastLastDevice(id, test, high[id].Full() - test.alloc[id].Full()), log;
        }
        AfterAccepted(s, cur, high, id, step, targets[id], probe);
        cur := test;
      } else {
        AfterRejected(s, cur, id, step, targets[id], probe);
        high, memHigh := test.alloc, test.mem;
      }
      delta := high[id].Full() - cur.alloc[id].Full();
    }
    SearchNext(s, cur, high, id, targets[id], probe);
    BoundsMeet(s, cur, high, id, targets[id], probe);
    FilledAfter(s, cur, id, targets[id], probe);
    r := Converted(cur);
  }

  /** One round of the search. */
  lemma SearchNext(s: State, cur: State, high: seq<Layers>, id: nat, target: int, probe: Probe)
    requires Searching(s, cur, id, target, probe) && id < |s.alloc| == |high|
    ensures |cur.alloc| == |cur.mem| == |s.alloc| && id <= cur.dense < |cur.alloc| && WellFormed(cur.alloc)
    ensures var delta := high[id].Full() - cur.alloc[id].Full();
            && (delta <= 1 ==> Search(cur, high, id, target, probe) == Converted(cur))
            && (delta > 1 && probe(high, cur.buffers, id) == cur.mem[id] ==>
                  Search(cur, high, id, target, probe) == DivisionByZero(id, cur))
            && (delta > 1 && probe(high, cur.buffers, id) != cur.mem[id] ==>
                  var test := TestOf(cur, id, StepSize(delta, target, cur.mem[id], probe(high, cur.buffers, id)), probe);
                  Search(cur, high, id, target, probe)
                  == if test.mem[id] > target then Search(cur, test.alloc, id, target, probe)
                     else if test.dense == |s.alloc| then PastLastDevice(id, test, high[id].Full() - test.alloc[id].Full())
                     else Search(test, high, id, target, probe))
  {
    hide Steps, TestOf, StepSize, Keeps;
  }

  lemma TestIs(cur: State, id: nat, step: nat, probe: Probe, test: State)
    requires id < |cur.alloc| && id <= cur.dense <= |cur.alloc| && WellFormed(cur.alloc)
    requires Test(test.alloc, test.dense) == Steps(cur.alloc, id, cur.dense, step) && test.buffers == cur.buffers
    requires test.mem == Measure(probe, test.alloc, cur.buffers)
    ensures test == TestOf(cur, id, step, probe)
  {
  }

  lemma AtLeastTheDevice(s: State, id: nat)
    requires Untouched(s.alloc, s.dense, id)
    ensures id <= s.dense < |s.alloc| && WellFormed(s.alloc)
  {
  }

  lemma SearchMeans(s: State, high: seq<Layers>, id: nat, target: int, probe: Probe)
    requires Consistent(s, probe) && Untouched(s.alloc, s.dense, id) && high == UpperBound(s.alloc, id, s.dense)
    requires Ends(s, Search(s, high, id, target, probe), id, target, probe) && target < probe(high, s.buffers, id)
    ensures var r := SearchFrom(s, id, target, probe);
            && r == Search(s, high, id, target, probe)
            && !r.PartUnderflow?
            && (r.DivisionByZero? ==> r.id == id && r.state == s && target < s.mem[id])
  {
    hide Search, Searching, Stopped, UpperBound, Keeps;
  }

  // ----- when a search runs past the last device

  /** Whether a search from this allocation runs past the last device, for a measurement and a target. */
  predicate RunsPast(alloc: seq<Layers>, buffers: seq<Buffer>, dense: nat, id: nat, target: int, probe: Probe)
    requires Untouched(alloc, dense, id)
  {
    SearchFrom(State(alloc, buffers, Measure(probe, alloc, buffers), dense), id, target, probe).PastLastDevice?
  }

  /** A measurement that refuses only one allocation. */
  function RefusesOnly(high: seq<Layers>, refused: int): Probe {
    (alloc, buffers, id) => if alloc == high then refused else 0
  }

  /** The step between a state that uses nothing and one that just exceeds the distance. */
  lemma LongestStep(delta: nat)
    requires 1 < delta < 0x1_0000_0000
    ensures StepSize(delta, delta, 0, delta + 1) == delta - 1
  {
    assert (delta - 1) * (delta + 1) == delta * delta - 1;
    QuotientIs(delta * delta, delta + 1, delta - 1);
  }

  lemma QuotientIs(a: nat, b: pos, q: nat)
    requires q * b <= a < (q + 1) * b
    ensures a / b == q
  {
    DivBounds(a, b);
    MulCancels(q, a / b + 1, b);
    MulCancels(a / b, q + 1, b);
  }

  /** A search whose first test is accepted and runs past the last device. */
  lemma FirstTestPast(cur: State, high: seq<Layers>, id: nat, target: int, probe: Probe)
    requires id < |cur.alloc| == |cur.mem| == |high| && id <= cur.dense < |cur.alloc| && WellFormed(cur.alloc)
    requires var delta := high[id].Full() - cur.alloc[id].Full();
             && delta > 1 && probe(high, cur.buffers, id) != cur.mem[id]
             && var test := TestOf(cur, id, StepSize(delta, target, cur.mem[id], probe(high, cur.buffers, id)), probe);
             test.mem[id] <= target && test.dense == |cur.alloc|
    ensures var r := Search(cur, high, id, target, probe);
            r.PastLastDevice? && r.id == id && r.left == high[id].Full() - r.state.alloc[id].Full()
  {
    hide TestOf, StepSize;
  }

  lemma RefusesOthersNot(high: seq<Layers>, refused: int, alloc: seq<Layers>, buffers: seq<Buffer>, id: nat)
    requires id < |alloc|
    ensures RefusesOnly(high, refused)(high, buffers, id) == refused
    ensures alloc != high ==> Measure(RefusesOnly(high, refused), alloc, buffers)[id] == 0
  {
  }

  /** The upper bound has more full layers on the device than any test. */
  lemma TestBelowUpperBound(s: State, id: nat, step: nat, probe: Probe)
    requires Untouched(s.alloc, s.dense, id) && 0 < Uncounted(s.alloc, id)
    ensures var t, high := Steps(s.alloc, id, s.dense, step), UpperBound(s.alloc, id, s.dense);
            && high[id].Full() == s.alloc[id].Full() + PartFrom(s.alloc, s.dense) + Uncounted(s.alloc, id)
            && t.alloc != high && s.alloc != high
            && (PartFrom(s.alloc, s.dense) <= step ==> t.dense == |s.alloc|)
  {
    hide Steps, PartFrom, Keeps, StepsOthers;
    StepsEffect(s.alloc, id, s.dense, step);
  }

  /** The first test of such a search converts everything. */
  lemma FirstTestRunsPast(alloc: seq<Layers>, buffers: seq<Buffer>, dense: nat, id: nat)
    requires Untouched(alloc, dense, id) && |buffers| == |alloc| && 0 < Uncounted(alloc, id)
    requires 1 < PartFrom(alloc, dense) + Uncounted(alloc, id) < 0x1_0000_0000
    ensures var delta := PartFrom(alloc, dense) + Uncounted(alloc, id);
            RunsPast(alloc, buffers, dense, id, delta, RefusesOnly(UpperBound(alloc, id, dense), delta + 1))
  {
    hide Steps, PartFrom, StepSize, UpperBound, Uncounted, RefusesOnly, Search, Measure;
    var delta, high := PartFrom(alloc, dense) + Uncounted(alloc, id), UpperBound(alloc, id, dense);
    var probe := RefusesOnly(high, delta + 1);
    var s := State(alloc, buffers, Measure(probe, alloc, buffers), dense);
    LongestStep(delta);
    TestBelowUpperBound(s, id, delta - 1, probe);
    RefusesOthersNot(high, delta + 1, alloc, buffers, id);
    RefusesOthersNot(high, delta + 1, Steps(alloc, id, dense, delta - 1).alloc, buffers, id);
    FirstTestPast(s, high, id, delta, probe);
  }

  /**
    There is a measurement and a target for which the search runs past the last device exactly if that device has more than
    one full layer, and there is something to convert or it has more than two.
   */
  lemma RunsPastIff(alloc: seq<Layers>, buffers: seq<Buffer>, dense: nat, id: nat)
    requires Untouched(alloc, dense, id) && |buffers| == |alloc|
    requires PartFrom(alloc, dense) + Uncounted(alloc, id) < 0x1_0000_0000
    ensures (exists target: int, probe: Probe :: RunsPast(alloc, buffers, dense, id, target, probe))
            <==> 0 < Uncounted(alloc, id) && 1 < PartFrom(alloc, dense) + Uncounted(alloc, id)
  {
    hide PartFrom;
    if 0 < Uncounted(alloc, id) && 1 < PartFrom(alloc, dense) + Uncounted(alloc, id) {
      FirstTestRunsPast(alloc, buffers, dense, id);
    }
    forall target: int, probe: Probe | RunsPast(alloc, buffers, dense, id, target, probe)
      ensures 0 < Uncounted(alloc, id) && 1 < PartFrom(alloc, dense) + Uncounted(alloc, id)
    {
      RunsPastOnlyIf(alloc, buffers, dense, id, target, probe);
    }
  }

  lemma RunsPastOnlyIf(alloc: seq<Layers>, buffers: seq<Buffer>, dense: nat, id: nat, target: int, probe: Probe)
    requires Untouched(alloc, dense, id) && |buffers| == |alloc| && RunsPast(alloc, buffers, dense, id, target, probe)
    ensures 0 < Uncounted(alloc, id) && 1 < PartFrom(alloc, dense) + Uncounted(alloc, id)
  {
    hide Steps, PartFrom, Searching, Refused, Stopped, Keeps;
    var s := State(alloc, buffers, Measure(probe, alloc, buffers), dense);
    var high := UpperBound(alloc, id, dense);
    SearchStarts(s, id, target, probe);
    SearchEnds(s, s, high, id, target, probe);
    assert high[id].Full() == alloc[id].Full() + PartFrom(alloc, dense) + Uncounted(alloc, id);
  }

  /**
    Past the last device no further test changes anything: with more than one layer between the bounds the search repeats
    the same test forever.
   */
  lemma NothingChanges(s: State, id: nat, step: nat, probe: Probe)
    requires id < |s.alloc| == s.dense && WellFormed(s.alloc) && Consistent(s, probe)
    ensures TestOf(s, id, step, probe) == s
  {
  }

  /** Two devices with two layers each, those of the last one full: the first test converts both others. */
  lemma RunsPastExample()
    ensures var alloc := [Layers(2, 2, Moe), Layers(2, 0, Moe)];
            var high := [Layers(3, 0, Moe), Layers(1, 0, Moe)];
            && Untouched(alloc, 0, 0) && UpperBound(alloc, 0, 0) == high
            && RunsPast(alloc, AllCpu(2), 0, 0, 3, RefusesOnly(high, 4))
  {
    hide RunsPast, RefusesOnly, PartFrom;
    var alloc := [Layers(2, 2, Moe), Layers(2, 0, Moe)];
    PartOfTwo(alloc);
    assert UpperBound(alloc, 0, 0) == [Layers(3, 0, Moe), Layers(1, 0, Moe)];
    hide UpperBound;
    FirstTestRunsPast(alloc, AllCpu(2), 0, 0);
  }

  lemma PartOfTwo(alloc: seq<Layers>)
    requires |alloc| == 2
    ensures PartFrom(alloc, 2) == 0 && PartFrom(alloc, 1) == alloc[1].nPart && PartFrom(alloc, 0) == alloc[0].nPart + alloc[1].nPart
  {
    assert PartFrom(alloc, 1) == alloc[1].nPart;
  }
}
