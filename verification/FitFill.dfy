/** Filling the devices back to front with layers by the method of false position. */
module FitFill {
  import opened Basics
  import opened FitLayers

  /** The state in which the devices before `id` have no layers yet. */
  function From(alloc: seq<Layers>, id: nat): (from: seq<Layers>)
    requires id <= |alloc|
    ensures |from| == |alloc|
    ensures forall i :: 0 <= i < |alloc| ==> from[i] == if i < id then NO_LAYERS else alloc[i]
  {
    seq(|alloc|, i requires 0 <= i < |alloc| => if i < id then NO_LAYERS else alloc[i])
  }

  /** Partial layers go with the layers of a mixture-of-experts model, except that the output layer is always full. */
  ghost predicate FillShape(layers: Layers, moe: bool, last: bool) {
    && layers.overflow == Moe
    && (!moe ==> layers.nPart == 0)
    && (moe && !last ==> layers.nPart == layers.nLayer)
    && (moe && last ==> layers.nPart <= layers.nLayer && (0 < layers.nLayer ==> layers.nPart < layers.nLayer))
  }

  /**
    `high` gives device `id` one more layer than `alloc`, in the shape of the fill, agrees on the other devices, and was
    measured not to fit.
   */
  ghost predicate Barrier(high: seq<Layers>, alloc: seq<Layers>, id: nat, moe: bool, target: int, probe: Probe)
    requires id < |alloc|
  {
    && |high| == |alloc|
    && FillShape(high[id], moe, id == |alloc| - 1)
    && (forall i :: 0 <= i < |alloc| && i != id ==> high[i] == alloc[i])
    && high[id].nLayer == alloc[id].nLayer + 1
    && target < probe(high, AllCpu(|alloc|), id)
  }

  /** Device `id` has no layers or was measured within its target, and it cannot simply be given another layer. */
  ghost predicate Settled(alloc: seq<Layers>, id: nat, available: int, moe: bool, target: int, probe: Probe)
    requires id < |alloc|
  {
    && alloc[id].nLayer <= available
    && (alloc[id].nLayer == 0 || probe(alloc, AllCpu(|alloc|), id) <= target)
    && (alloc[id].nLayer == available || exists high :: Barrier(high, alloc, id, moe, target, probe))
  }

  /** Device `id` was settled when the devices before it were still empty. */
  ghost predicate Placed(alloc: seq<Layers>, id: nat, hpNgl: nat, moe: bool, targets: seq<int>, probe: Probe)
    requires id < |alloc| == |targets|
  {
    && FillShape(alloc[id], moe, id == |alloc| - 1)
    && Settled(From(alloc, id), id, hpNgl + 1 - Total(From(alloc, id + 1)), moe, targets[id], probe)
  }

  lemma PlacedDependsOnTail(before: seq<Layers>, after: seq<Layers>, id: nat, hpNgl: nat, moe: bool, targets: seq<int>, probe: Probe)
    requires id < |before| == |after| == |targets|
    requires before[id..] == after[id..]
    requires Placed(before, id, hpNgl, moe, targets, probe)
    ensures Placed(after, id, hpNgl, moe, targets, probe)
  {
    assert forall i :: id <= i < |before| ==> before[i] == before[id..][i - id] && after[i] == after[id..][i - id];
    assert From(before, id) == From(after, id) && From(before, id + 1) == From(after, id + 1);
  }

  /** Adding `step` layers to a device during the search. */
  function AddLayers(layers: Layers, step: pos, moe: bool, last: bool): Layers
  {
    Layers(layers.nLayer + step,
           if moe then layers.nPart + (if last && layers.nPart == 0 then step - 1 else step) else layers.nPart,
           layers.overflow)
  }

  /** Giving a device all unassigned layers. */
  function AllLayers(layers: Layers, unassigned: pos, moe: bool, last: bool): Layers
  {
    Layers(unassigned,
           if moe then (if last then unassigned - 1 else unassigned) else layers.nPart,
           layers.overflow)
  }

  /** The layers of a device after a sequence of accepted steps. */
  function AfterSteps(steps: seq<pos>, moe: bool, last: bool): Layers {
    if steps == [] then NO_LAYERS
    else AddLayers(AfterSteps(steps[..|steps| - 1], moe, last), steps[|steps| - 1], moe, last)
  }

  /** Steps keep the shape of the fill. */
  lemma ShapeKept(layers: Layers, step: pos, moe: bool, last: bool)
    requires FillShape(layers, moe, last)
    ensures FillShape(AddLayers(layers, step, moe, last), moe, last)
    ensures AddLayers(layers, step, moe, last).nLayer == layers.nLayer + step
  {
  }

  lemma ShapeOfAll(unassigned: pos, moe: bool, last: bool)
    ensures FillShape(NO_LAYERS, moe, last) && FillShape(AllLayers(NO_LAYERS, unassigned, moe, last), moe, last)
    ensures AllLayers(NO_LAYERS, unassigned, moe, last).nLayer == unassigned && AfterSteps([], moe, last) == NO_LAYERS
  {
  }

  lemma OneMoreStep(steps: seq<pos>, step: pos, moe: bool, last: bool)
    ensures AfterSteps(steps + [step], moe, last) == AddLayers(AfterSteps(steps, moe, last), step, moe, last)
  {
    assert (steps + [step])[..|steps|] == steps;
  }

  datatype Fill =
    | Filled(alloc: seq<Layers>, mem: seq<int>)
    | DivisionByZero(id: nat, state: seq<Layers>)

  // ----- the search as a function of its bounds

  lemma {:induction false} EmptyTotal(alloc: seq<Layers>, n: nat)
    requires n <= |alloc| && forall i :: 0 <= i < n ==> alloc[i] == NO_LAYERS
    ensures SumTo(alloc, n) == 0
  {
    if n > 0 {
      EmptyTotal(alloc, n - 1);
    }
  }

  /** The search between an allocation and one that was measured not to fit. */
  function Search(alloc: seq<Layers>, high: seq<Layers>, id: nat, moe: bool, target: int, probe: Probe): (r: Fill)
    requires id < |alloc| == |high|
    ensures r.Filled? ==> |r.alloc| == |alloc| && r.alloc == alloc[id := r.alloc[id]]
                          && (r.alloc == alloc || r.alloc[id].nLayer < high[id].nLayer)
    ensures r.DivisionByZero? ==> r.id == id && |r.state| == |alloc| && r.state == alloc[id := r.state[id]]
    decreases high[id].nLayer - alloc[id].nLayer
  {
    var buffers, delta := AllCpu(|alloc|), high[id].nLayer - alloc[id].nLayer;
    var mem, memHigh := probe(alloc, buffers, id), probe(high, buffers, id);
    if delta <= 1 then Filled(alloc, Measure(probe, alloc, buffers))
    else if memHigh == mem then DivisionByZero(id, alloc)
    else
      var test := alloc[id := AddLayers(alloc[id], StepSize(delta, target, mem, memHigh), moe, id == |alloc| - 1)];
      if probe(test, buffers, id) <= target then Search(test, high, id, moe, target, probe)
      else Search(alloc, test, id, moe, target, probe)
  }

  /** The whole search: the device gets all unassigned layers if they fit. */
  function FillOne(start: seq<Layers>, id: nat, unassigned: nat, moe: bool, target: int, probe: Probe): (r: Fill)
    requires id < |start| && start[id] == NO_LAYERS
    ensures r.Filled? ==> |r.alloc| == |start| && r.alloc == start[id := r.alloc[id]] && r.alloc[id].nLayer <= unassigned
    ensures r.DivisionByZero? ==> r.id == id && |r.state| == |start| && r.state == start[id := r.state[id]]
  {
    var buffers := AllCpu(|start|);
    if unassigned == 0 then Filled(start, Measure(probe, start, buffers))
    else
      var high := start[id := AllLayers(NO_LAYERS, unassigned, moe, id == |start| - 1)];
      if probe(high, buffers, id) <= target then Filled(high, Measure(probe, high, buffers))
      else Search(start, high, id, moe, target, probe)
  }

  /** Fills the devices before `id`, back to front. */
  function FillFrom(alloc: seq<Layers>, id: nat, hpNgl: nat, moe: bool, targets: seq<int>, probe: Probe): (r: Fill)
    requires id <= |alloc| == |targets| && alloc == From(alloc, id) && Total(alloc) <= hpNgl + 1
    decreases id
  {
    if id == 0 then Filled(alloc, Measure(probe, alloc, AllCpu(|alloc|)))
    else
      var r := FillOne(alloc, id - 1, hpNgl + 1 - Total(alloc), moe, targets[id - 1], probe);
      if r.DivisionByZero? then r
      else
        assert r.alloc == From(r.alloc, id - 1);
        SumToUpdate(alloc, id - 1, r.alloc[id - 1], |alloc|);
        FillFrom(r.alloc, id - 1, hpNgl, moe, targets, probe)
  }

  function Unfilled(n: nat): (alloc: seq<Layers>)
    ensures |alloc| == n && alloc == From(alloc, n) && Total(alloc) == 0
  {
    var alloc := seq(n, _ => NO_LAYERS);
    EmptyTotal(alloc, n);
    alloc
  }

  /** A device that is above its target without layers and uses the same with all of them. */
  ghost predicate AlwaysOver(start: seq<Layers>, id: nat, unassigned: nat, moe: bool, target: int, probe: Probe)
    requires id < |start|
  {
    && 1 < unassigned
    && target < probe(start, AllCpu(|start|), id)
    && probe(start[id := AllLayers(NO_LAYERS, unassigned, moe, id == |start| - 1)], AllCpu(|start|), id)
       == probe(start, AllCpu(|start|), id)
  }

  /** Then the first step of the search divides by zero. */
  lemma FillOneDivides(start: seq<Layers>, id: nat, unassigned: nat, moe: bool, target: int, probe: Probe)
    requires id < |start| && start[id] == NO_LAYERS
    ensures AlwaysOver(start, id, unassigned, moe, target, probe) ==>
      FillOne(start, id, unassigned, moe, target, probe) == DivisionByZero(id, start)
  {
  }

  /** One round of the search. */
  lemma SearchNext(alloc: seq<Layers>, high: seq<Layers>, id: nat, moe: bool, target: int, probe: Probe)
    requires id < |alloc| == |high|
    ensures var buffers, delta := AllCpu(|alloc|), high[id].nLayer - alloc[id].nLayer;
            var mem, memHigh := Measure(probe, alloc, buffers), Measure(probe, high, buffers);
            && (delta <= 1 ==> Search(alloc, high, id, moe, target, probe) == Filled(alloc, mem))
            && (delta > 1 && memHigh[id] == mem[id] ==>
                  Search(alloc, high, id, moe, target, probe) == DivisionByZero(id, alloc))
            && (delta > 1 && memHigh[id] != mem[id] ==>
                  var layers := AddLayers(alloc[id], StepSize(delta, target, mem[id], memHigh[id]), moe, id == |alloc| - 1);
                  var test := alloc[id := layers];
                  Search(alloc, high, id, moe, target, probe)
                  == if Measure(probe, test, buffers)[id] <= target then Search(test, high, id, moe, target, probe)
                     else Search(alloc, test, id, moe, target, probe))
  {
    hide StepSize, AddLayers;
  }

  /** What the search begins with. */
  lemma FillOneMeans(start: seq<Layers>, id: nat, unassigned: nat, moe: bool, target: int, probe: Probe)
    requires id < |start| && start[id] == NO_LAYERS
    ensures unassigned == 0 ==>
      FillOne(start, id, unassigned, moe, target, probe) == Filled(start, Measure(probe, start, AllCpu(|start|)))
    ensures unassigned > 0 ==>
      var high := start[id := AllLayers(NO_LAYERS, unassigned, moe, id == |start| - 1)];
      FillOne(start, id, unassigned, moe, target, probe)
      == if Measure(probe, high, AllCpu(|start|))[id] <= target then Filled(high, Measure(probe, high, AllCpu(|start|)))
         else Search(start, high, id, moe, target, probe)
  {
    hide Search, AllLayers;
  }

  /** The search never goes below an accepted number of layers nor up to a refused one. */
  lemma {:induction false} SearchBetween(alloc: seq<Layers>, high: seq<Layers>, id: nat, moe: bool, target: int, probe: Probe)
    requires id < |alloc| == |high|
    ensures var r := Search(alloc, high, id, moe, target, probe);
            r.Filled? ==> alloc[id].nLayer <= r.alloc[id].nLayer
                          && (r.alloc[id].nLayer == alloc[id].nLayer || r.alloc[id].nLayer < high[id].nLayer)
    decreases high[id].nLayer - alloc[id].nLayer
  {
    hide StepSize;
    var buffers, delta := AllCpu(|alloc|), high[id].nLayer - alloc[id].nLayer;
    var mem, memHigh := probe(alloc, buffers, id), probe(high, buffers, id);
    if delta > 1 && memHigh != mem {
      var test := alloc[id := AddLayers(alloc[id], StepSize(delta, target, mem, memHigh), moe, id == |alloc| - 1)];
      if probe(test, buffers, id) <= target {
        SearchBetween(test, high, id, moe, target, probe);
      } else {
        SearchBetween(alloc, test, id, moe, target, probe);
      }
    }
  }

  /**
    The first test is the interpolated number of layers: if it is within the target the device gets at least as many, and
    otherwise fewer.
   */
  lemma FirstTestDecides(start: seq<Layers>, id: nat, unassigned: nat, moe: bool, target: int, probe: Probe)
    requires id < |start| && start[id] == NO_LAYERS && 1 < unassigned
    requires var mem := probe(start, AllCpu(|start|), id);
             var memHigh := probe(start[id := AllLayers(NO_LAYERS, unassigned, moe, id == |start| - 1)], AllCpu(|start|), id);
             target < memHigh != mem
    ensures var mem := probe(start, AllCpu(|start|), id);
            var memHigh := probe(start[id := AllLayers(NO_LAYERS, unassigned, moe, id == |start| - 1)], AllCpu(|start|), id);
            var step := StepSize(unassigned, target, mem, memHigh);
            var test := start[id := AddLayers(NO_LAYERS, step, moe, id == |start| - 1)];
            var r := FillOne(start, id, unassigned, moe, target, probe);
            r.Filled? ==> (probe(test, AllCpu(|start|), id) <= target <==> step <= r.alloc[id].nLayer)
  {
    hide StepSize, Search;
    var last, buffers := id == |start| - 1, AllCpu(|start|);
    var high := start[id := AllLayers(NO_LAYERS, unassigned, moe, last)];
    var step := StepSize(unassigned, target, probe(start, buffers, id), probe(high, buffers, id));
    var test := start[id := AddLayers(NO_LAYERS, step, moe, last)];
    FillOneMeans(start, id, unassigned, moe, target, probe);
    SearchNext(start, high, id, moe, target, probe);
    SearchBetween(test, high, id, moe, target, probe);
    SearchBetween(start, test, id, moe, target, probe);
  }

  /** Fills one device that has no layers yet; `steps` are the accepted steps of the search, if one was needed. */
  method FillDevice(start: seq<Layers>, startMem: seq<int>, id: nat, unassigned: nat, moe: bool, target: int, probe: Probe)
    returns (r: Fill, ghost steps: seq<pos>)
    requires id < |start| && start[id] == NO_LAYERS
    requires startMem == Measure(probe, start, AllCpu(|start|))
    ensures r == FillOne(start, id, unassigned, moe, target, probe)
    ensures r.Filled? ==> |r.alloc| == |start| && r.alloc == start[id := r.alloc[id]]
    ensures r.Filled? ==> r.mem == Measure(probe, r.alloc, AllCpu(|start|))
    ensures r.Filled? ==> FillShape(r.alloc[id], moe, id == |start| - 1)
    ensures r.Filled? ==> Settled(r.alloc, id, unassigned, moe, target, probe)
    ensures r.Filled? ==> (unassigned > 0 && r.alloc[id] == AllLayers(NO_LAYERS, unassigned, moe, id == |start| - 1))
                          || r.alloc[id] == AfterSteps(steps, moe, id == |start| - 1)
    ensures r.DivisionByZero? ==> r.id == id && r.state == start && startMem[id] > target && unassigned > 1
    ensures AlwaysOver(start, id, unassigned, moe, target, probe) ==> r.DivisionByZero?
  {
    hide StepSize, Search, FillOne, AddLayers, AllLayers, AfterSteps, FillShape, AlwaysOver;
    FillOneDivides(start, id, unassigned, moe, target, probe);
    FillOneMeans(start, id, unassigned, moe, target, probe);
    var nd := |start|;
    var buffers := AllCpu(nd);
    var last := id == nd - 1;
    var alloc, mem := start, startMem;
    steps := [];
    ShapeOfAll(if unassigned == 0 then 1 else unassigned, moe, last);
    if unassigned == 0 {
      return Filled(alloc, mem), steps;
    }
    var high := alloc[id := AllLayers(alloc[id], unassigned, moe, last)];
    var memHigh := Measure(probe, high, buffers);
    if memHigh[id] <= target {
      return Filled(high, memHigh), steps;
    }
    var delta := high[id].nLayer - alloc[id].nLayer;
    while delta > 1
      invariant |alloc| == |high| == nd
      invariant alloc == start[id := alloc[id]] && high == start[id := high[id]]
      invariant mem == Measure(probe, alloc, buffers) && memHigh == Measure(probe, high, buffers)
      invariant alloc[id].nLayer == 0 || mem[id] <= target
      invariant alloc[id].nLayer == 0 ==> alloc == start
      invariant target < memHigh[id]
      invariant delta == high[id].nLayer - alloc[id].nLayer && delta >= 1
      invariant high[id].nLayer <= unassigned
      invariant FillShape(alloc[id], moe, last) && FillShape(high[id], moe, last)
      invariant alloc[id] == AfterSteps(steps, moe, last)
      invariant Search(alloc, high, id, moe, target, probe) == FillOne(start, id, unassigned, moe, target, probe)
    {
      SearchNext(alloc, high, id, moe, target, probe);
      if memHigh[id] == mem[id] {
        return DivisionByZero(id, alloc), steps;
      }
      var step := StepSize(delta, target, mem[id], memHigh[id]);
      var test := alloc[id := AddLayers(alloc[id], step, moe, last)];
      var memTest := Measure(probe, test, buffers);
      ShapeKept(alloc[id], step, moe, last);
      if memTest[id] <= target {
        alloc, mem := test, memTest;
        OneMoreStep(steps, step, moe, last);
        steps := steps + [step];
      } else {
        high, memHigh := test, memTest;
      }
      delta := high[id].nLayer - alloc[id].nLayer;
    }
    SearchNext(alloc, high, id, moe, target, probe);
    assert Barrier(high, alloc, id, moe, target, probe);
    return Filled(alloc, mem), steps;
  }

  /** When every device is within its target without layers, the search never divides by zero. */
  ghost predicate EmptyDevicesFit(targets: seq<int>, probe: Probe) {
    forall alloc: seq<Layers>, id: nat ::
      id < |targets| == |alloc| && alloc[id].nLayer == 0 ==> probe(alloc, AllCpu(|targets|), id) <= targets[id]
  }

  /** The layers not taken by the devices after `id`. */
  method UnassignedLayers(hpNgl: nat, alloc: seq<Layers>, id: nat) returns (unassigned: nat)
    requires id < |alloc| && alloc == From(alloc, id + 1) && Total(alloc) <= hpNgl + 1
    ensures unassigned == hpNgl + 1 - Total(alloc)
  {
    unassigned := hpNgl + 1;
    var jd := id + 1;
    while jd < |alloc|
      invariant id + 1 <= jd <= |alloc|
      invariant unassigned == hpNgl + 1 - (SumTo(alloc, jd) - SumTo(alloc, id + 1))
    {
      SumToMonotone(alloc, jd + 1, |alloc|);
      unassigned := unassigned - alloc[jd].nLayer;
      jd := jd + 1;
    }
    EmptyTotal(alloc, id + 1);
  }

  /** Settling device `id` keeps every later device placed. */
  lemma PlacedNext(before: seq<Layers>, after: seq<Layers>, id: nat, hpNgl: nat, moe: bool, targets: seq<int>, probe: Probe)
    requires id < |before| == |targets| && before == From(before, id + 1) && Total(before) <= hpNgl + 1
    requires |after| == |before| && after == before[id := after[id]]
    requires FillShape(after[id], moe, id == |before| - 1)
    requires Settled(after, id, hpNgl + 1 - Total(before), moe, targets[id], probe)
    requires forall k :: id < k < |before| ==> Placed(before, k, hpNgl, moe, targets, probe)
    ensures after == From(after, id) && Total(after) <= hpNgl + 1
    ensures forall k :: id <= k < |before| ==> Placed(after, k, hpNgl, moe, targets, probe)
  {
    assert From(after, id) == after && From(after, id + 1) == before;
    SumToUpdate(before, id, after[id], |before|);
    forall k | id < k < |before|
      ensures Placed(after, k, hpNgl, moe, targets, probe)
    {
      PlacedDependsOnTail(before, after, k, hpNgl, moe, targets, probe);
    }
  }

  /** One device of the fill. */
  lemma FillNext(alloc: seq<Layers>, id: nat, hpNgl: nat, moe: bool, targets: seq<int>, probe: Probe)
    requires id <= |alloc| == |targets| && alloc == From(alloc, id) && Total(alloc) <= hpNgl + 1
    ensures id == 0 ==>
      FillFrom(alloc, id, hpNgl, moe, targets, probe) == Filled(alloc, Measure(probe, alloc, AllCpu(|alloc|)))
    ensures id > 0 ==>
      var r := FillOne(alloc, id - 1, hpNgl + 1 - Total(alloc), moe, targets[id - 1], probe);
      && (r.DivisionByZero? ==> FillFrom(alloc, id, hpNgl, moe, targets, probe) == r)
      && (r.Filled? ==> r.alloc == From(r.alloc, id - 1) && Total(r.alloc) <= hpNgl + 1 &&
                        FillFrom(alloc, id, hpNgl, moe, targets, probe)
                        == FillFrom(r.alloc, id - 1, hpNgl, moe, targets, probe))
  {
    hide FillOne;
    if id > 0 {
      var r := FillOne(alloc, id - 1, hpNgl + 1 - Total(alloc), moe, targets[id - 1], probe);
      if r.Filled? {
        assert r.alloc == From(r.alloc, id - 1);
        SumToUpdate(alloc, id - 1, r.alloc[id - 1], |alloc|);
      }
    }
  }

  lemma FillDivides(hpNgl: nat, moe: bool, targets: seq<int>, probe: Probe)
    ensures var nd := |targets|;
            nd > 0 && AlwaysOver(Unfilled(nd), nd - 1, hpNgl + 1, moe, targets[nd - 1], probe) ==>
              FillFrom(Unfilled(nd), nd, hpNgl, moe, targets, probe).DivisionByZero?
  {
    hide FillFrom, FillOne, AlwaysOver, Unfilled;
    var nd := |targets|;
    FillNext(Unfilled(nd), nd, hpNgl, moe, targets, probe);
    if nd > 0 {
      FillOneDivides(Unfilled(nd), nd - 1, hpNgl + 1, moe, targets[nd - 1], probe);
    }
  }

  /** Fills all devices back to front, the last one taking the output layer. */
  method FillBackToFront(hpNgl: nat, moe: bool, targets: seq<int>, probe: Probe) returns (r: Fill)
    ensures r == FillFrom(Unfilled(|targets|), |targets|, hpNgl, moe, targets, probe)
    ensures r.Filled? ==> |r.alloc| == |targets| && r.mem == Measure(probe, r.alloc, AllCpu(|targets|))
    ensures r.Filled? ==> Total(r.alloc) <= hpNgl + 1
    ensures r.Filled? ==> forall id :: 0 <= id < |targets| ==> Placed(r.alloc, id, hpNgl, moe, targets, probe)
    ensures EmptyDevicesFit(targets, probe) ==> r.Filled?
    ensures targets != [] && AlwaysOver(Unfilled(|targets|), |targets| - 1, hpNgl + 1, moe, targets[|targets| - 1], probe) ==>
      r.DivisionByZero?
    ensures r.DivisionByZero? ==> r.id < |targets| == |r.state| && r.state[r.id].nLayer == 0
                                  && targets[r.id] < probe(r.state, AllCpu(|targets|), r.id)
  {
    hide FillFrom, FillOne, Placed, Total, Unfilled, AlwaysOver;
    FillDivides(hpNgl, moe, targets, probe);
    var nd := |targets|;
    var alloc := Unfilled(nd);
    var mem := Measure(probe, alloc, AllCpu(nd));
    var id := nd;
    while id > 0
      invariant 0 <= id <= nd == |alloc|
      invariant mem == Measure(probe, alloc, AllCpu(nd))
      invariant alloc == From(alloc, id) && Total(alloc) <= hpNgl + 1
      invariant forall k :: id <= k < nd ==> Placed(alloc, k, hpNgl, moe, targets, probe)
      invariant FillFrom(alloc, id, hpNgl, moe, targets, probe) == FillFrom(Unfilled(nd), nd, hpNgl, moe, targets, probe)
    {
      FillNext(alloc, id, hpNgl, moe, targets, probe);
      id := id - 1;
      var unassigned := UnassignedLayers(hpNgl, alloc, id);
      ghost var steps;
      r, steps := FillDevice(alloc, mem, id, unassigned, moe, targets[id], probe);
      if r.DivisionByZero? {
        return;
      }
      PlacedNext(alloc, r.alloc, id, hpNgl, moe, targets, probe);
      alloc, mem := r.alloc, r.mem;
    }
    FillNext(alloc, 0, hpNgl, moe, targets, probe);
    r := Filled(alloc, mem);
  }

  // ----- when the search divides by zero

  /** A measurement that never fits: every device always uses one more than its target. */
  function NeverFits(targets: seq<int>): Probe {
    (alloc: seq<Layers>, buffers: seq<Buffer>, id: nat) => if id < |targets| then targets[id] + 1 else 0
  }

  lemma {:induction false} OneLayerNeverDivides(alloc: seq<Layers>, id: nat, moe: bool, targets: seq<int>, probe: Probe)
    requires id <= |alloc| == |targets| && alloc == From(alloc, id) && Total(alloc) <= 1
    ensures FillFrom(alloc, id, 0, moe, targets, probe).Filled?
    decreases id
  {
    hide FillOne;
    FillNext(alloc, id, 0, moe, targets, probe);
    if id > 0 {
      FillOneMeans(alloc, id - 1, 1 - Total(alloc), moe, targets[id - 1], probe);
      var r := FillOne(alloc, id - 1, 1 - Total(alloc), moe, targets[id - 1], probe);
      assert r.Filled?;
      OneLayerNeverDivides(r.alloc, id - 1, moe, targets, probe);
    }
  }

  /** For all targets there is a measurement for which the fill divides by zero, unless there is no device or no layer. */
  lemma FillDividesIff(hpNgl: nat, moe: bool, targets: seq<int>)
    ensures (exists probe: Probe :: FillFrom(Unfilled(|targets|), |targets|, hpNgl, moe, targets, probe).DivisionByZero?)
            <==> targets != [] && 0 < hpNgl
  {
    hide FillFrom, FillOne;
    var nd := |targets|;
    var start := Unfilled(nd);
    if targets != [] && 0 < hpNgl {
      var probe := NeverFits(targets);
      FillDivides(hpNgl, moe, targets, probe);
      assert FillFrom(start, nd, hpNgl, moe, targets, probe).DivisionByZero?;
    }
    forall probe: Probe | FillFrom(start, nd, hpNgl, moe, targets, probe).DivisionByZero?
      ensures targets != [] && 0 < hpNgl
    {
      FillNext(start, nd, hpNgl, moe, targets, probe);
      if hpNgl == 0 {
        OneLayerNeverDivides(start, nd, moe, targets, probe);
      }
    }
  }

  /** How many single layers the search accepted first. */
  function LeadingOnes(steps: seq<pos>): (n: nat)
    ensures n <= |steps| && (forall k :: 0 <= k < n ==> steps[k] == 1) && (n < |steps| ==> steps[n] > 1)
  {
    if steps == [] || steps[0] > 1 then 0 else 1 + LeadingOnes(steps[1..])
  }

  lemma {:induction false} OnesAre(steps: seq<pos>, n: nat)
    requires n <= |steps| && (forall k :: 0 <= k < n ==> steps[k] == 1) && (n < |steps| ==> steps[n] > 1)
    ensures LeadingOnes(steps) == n
    decreases |steps|
  {
    if n > 0 {
      OnesAre(steps[1..], n - 1);
    }
  }

  lemma OnesOfInit(steps: seq<pos>)
    requires steps != []
    ensures var n := LeadingOnes(steps);
            LeadingOnes(steps[..|steps| - 1]) == if n < |steps| then n else |steps| - 1
  {
    hide LeadingOnes;
    var n := LeadingOnes(steps);
    OnesAre(steps[..|steps| - 1], if n < |steps| then n else |steps| - 1);
  }

  /**
    On the last device of a mixture-of-experts model every single layer that is accepted first stays full, and so does one
    layer of the first larger step.
   */
  lemma {:induction false} LastDeviceFull(steps: seq<pos>)
    ensures AfterSteps(steps, true, true).Full() == if LeadingOnes(steps) < |steps| then LeadingOnes(steps) + 1 else |steps|
    ensures AfterSteps(steps, true, true).nPart == 0 <==> LeadingOnes(steps) == |steps|
    decreases |steps|
  {
    hide LeadingOnes;
    if steps != [] {
      LastDeviceFull(steps[..|steps| - 1]);
      OnesOfInit(steps);
    }
  }

  /** The last device keeps exactly one full layer iff its search accepted something and not two steps beginning with a 1. */
  lemma LastDeviceKeepsOneFull(steps: seq<pos>)
    ensures AfterSteps(steps, true, true).Full() == 1 <==> |steps| == 1 || (|steps| > 1 && steps[0] > 1)
  {
    hide AfterSteps;
    LastDeviceFull(steps);
  }
}
