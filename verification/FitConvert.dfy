/** Converting dense-only layers in the back to full layers in the front until the devices are full. */
module FitConvert {
  import opened Basics
  import opened FitLayers
  import opened FitSteps
  import opened FitSearch

  // ----- one more layer, partly

  function Decrement32(x: nat): (r: nat) {
    if x == 0 then 0xFFFF_FFFF else x - 1
  }

  function Increment32(x: nat): (r: nat) {
    if x == 0xFFFF_FFFF then 0 else x + 1
  }

  /** One more layer for device `id` as a partial layer, taken from device `dense`, in 32-bit arithmetic. */
  function ExtraLayer(alloc: seq<Layers>, dense: nat, id: nat): (test: seq<Layers>)
    requires id < |alloc| && dense < |alloc| && alloc[dense].nLayer > 0
    ensures |test| == |alloc|
  {
    var taken := alloc[dense := alloc[dense].(nLayer := alloc[dense].nLayer - 1, nPart := Decrement32(alloc[dense].nPart))];
    taken[id := taken[id].(nLayer := taken[id].nLayer + 1, nPart := Increment32(taken[id].nPart))]
  }

  /**
    The number of partial layers stays at most the number of layers exactly if there is a partial layer to take, or if
    the layer is taken from the very device that receives it.
   */
  lemma ExtraLayerWellFormedIff(alloc: seq<Layers>, dense: nat, id: nat)
    requires id < |alloc| && dense < |alloc| && alloc[dense].nLayer > 0 && WellFormed(alloc)
    requires forall j :: 0 <= j < |alloc| ==> alloc[j].nLayer < 0xFFFF_FFFF
    ensures WellFormed(ExtraLayer(alloc, dense, id)) <==> id == dense || alloc[dense].nPart > 0
  {
    var test := ExtraLayer(alloc, dense, id);
    if id != dense && alloc[dense].nPart == 0 {
      assert test[dense].nPart == 0xFFFF_FFFF;
    }
  }

  /** Two devices, everything but the output layer converted to the first one: the extra layer breaks the counts. */
  lemma ExtraLayerBreaksCounts()
    ensures var alloc := [Layers(40, 0, Moe), Layers(1, 0, Moe)];
            && WellFormed(alloc) && DenseOnly(alloc[1], true)
            && ExtraLayer(alloc, 1, 0)[1] == Layers(0, 0xFFFF_FFFF, Moe)
            && !WellFormed(ExtraLayer(alloc, 1, 0))
  {
  }

  lemma ExtraLayerEffect(alloc: seq<Layers>, dense: nat, id: nat)
    requires id <= dense < |alloc| && alloc[dense].nLayer > 0 && Ready(alloc, dense, id)
    requires id == dense || alloc[dense].nPart > 0
    requires forall j :: 0 <= j < |alloc| ==> alloc[j].nLayer < 0xFFFF_FFFF
    ensures var test := ExtraLayer(alloc, dense, id);
            && Keeps(alloc, test)
            && Ready(test, dense, id)
            && (id != dense ==> test[id].nLayer == alloc[id].nLayer + 1 && test[dense].nLayer == alloc[dense].nLayer - 1)
            && (id == dense ==> test == alloc)
            && (forall j :: 0 <= j < |alloc| && j != id && j != dense ==> test[j] == alloc[j])
            && forall j :: 0 <= j < |alloc| ==> test[j].Full() == alloc[j].Full()
  {
    var taken := alloc[dense := alloc[dense].(nLayer := alloc[dense].nLayer - 1, nPart := Decrement32(alloc[dense].nPart))];
    SumToUpdate(alloc, dense, taken[dense], |alloc|);
    SumToUpdate(taken, id, taken[id].(nLayer := taken[id].nLayer + 1, nPart := Increment32(taken[id].nPart)), |alloc|);
  }

  lemma {:induction false} EachAtMostTotal(alloc: seq<Layers>, n: nat)
    requires n <= |alloc|
    ensures forall j :: 0 <= j < n ==> alloc[j].nLayer <= SumTo(alloc, n)
  {
    if n > 0 {
      EachAtMostTotal(alloc, n - 1);
    }
  }

  lemma EachBelow(alloc: seq<Layers>, limit: nat)
    requires Total(alloc) < limit
    ensures forall j :: 0 <= j < |alloc| ==> alloc[j].nLayer < limit
  {
    EachAtMostTotal(alloc, |alloc|);
  }

  ghost predicate SameCounts(a: seq<Layers>, b: seq<Layers>) {
    |a| == |b| && forall j :: 0 <= j < |a| ==> a[j].nLayer == b[j].nLayer && a[j].nPart == b[j].nPart
  }

  lemma {:induction false} OverflowKeeps(before: seq<Layers>, a: seq<Layers>, b: seq<Layers>, n: nat)
    requires SameCounts(a, b) && n <= |a|
    ensures SumTo(a, n) == SumTo(b, n)
    ensures n == |a| && Keeps(before, a) ==> Keeps(before, b)
  {
    if n > 0 {
      OverflowKeeps(before, a, b, n - 1);
    }
  }

  /** Strictly within the targets on device `id` and on the next one, which the overflow may load. */
  predicate OverflowFits(mem: seq<int>, id: nat, targets: seq<int>): (fits: bool)
    requires id < |mem| == |targets|
    ensures fits <==> forall j :: id <= j <= id + 1 && j < |mem| ==> mem[j] < targets[j]
  {
    mem[id] < targets[id] && (id + 1 == |mem| || mem[id + 1] < targets[id + 1])
  }

  predicate FractionFits(fraction: Fraction, moved: seq<Layers>, buffers: seq<Buffer>, id: nat, targets: seq<int>, probe: Probe)
    requires id < |moved| == |targets|
  {
    OverflowFits(Measure(probe, moved[id := moved[id].(overflow := fraction)], buffers), id, targets)
  }

  /** The fraction of the extra layer that is kept, if any fits. */
  function Choice(moved: seq<Layers>, buffers: seq<Buffer>, id: nat, targets: seq<int>, probe: Probe): Option<Fraction>
    requires id < |moved| == |targets|
  {
    if FractionFits(Up, moved, buffers, id, targets, probe) then
      Some(if FractionFits(Gate, moved, buffers, id, targets, probe) then Gate else Up)
    else if FractionFits(Attn, moved, buffers, id, targets, probe) then Some(Attn)
    else None
  }

  method Overflowing(alloc: seq<Layers>, buffers: seq<Buffer>, id: nat, fraction: Fraction, probe: Probe)
    returns (test: seq<Layers>, mem: seq<int>)
    requires id < |alloc|
    ensures test == alloc[id := alloc[id].(overflow := fraction)] && SameCounts(alloc, test)
    ensures mem == Measure(probe, test, buffers)
  {
    test := alloc[id := alloc[id].(overflow := fraction)];
    mem := Measure(probe, test, buffers);
  }

  /** Attention and up must fit for more to be tried; if they do not fit, attention alone is tried. */
  method ChooseFraction(moved: seq<Layers>, buffers: seq<Buffer>, id: nat, targets: seq<int>, probe: Probe)
    returns (fits: bool, test: seq<Layers>, mem: seq<int>, ghost log: seq<Accepted>)
    requires id < |moved| == |targets|
    ensures |test| == |mem| == |moved| && mem == Measure(probe, test, buffers)
    ensures fits ==> SameCounts(moved, test) && OverflowFits(mem, id, targets) && test[id].overflow != Moe
    ensures fits ==> log != [] && log[|log| - 1] == Accepted(id, test, buffers, true)
    ensures !fits ==> log == []
    ensures forall k :: 0 <= k < |log| ==> Within(log[k], targets, probe) && SameCounts(moved, log[k].alloc)
    ensures OfDevice(log, id)
    ensures fits ==> test[id].overflow == Up || test[id].overflow == Gate || test[id].overflow == Attn
    ensures fits && test[id].overflow == Up ==>
      !OverflowFits(Measure(probe, moved[id := moved[id].(overflow := Gate)], buffers), id, targets)
    ensures fits && test[id].overflow == Gate ==>
      OverflowFits(Measure(probe, moved[id := moved[id].(overflow := Up)], buffers), id, targets)
    ensures (fits && test[id].overflow == Attn) || !fits ==>
      !OverflowFits(Measure(probe, moved[id := moved[id].(overflow := Up)], buffers), id, targets)
    ensures !fits ==>
      !OverflowFits(Measure(probe, moved[id := moved[id].(overflow := Attn)], buffers), id, targets)
    ensures fits <==> Choice(moved, buffers, id, targets, probe).Some?
    ensures fits ==>
      test == moved[id := moved[id].(overflow := Choice(moved, buffers, id, targets, probe).value)]
  {
    log := [];
    test, mem := Overflowing(moved, buffers, id, Up, probe);
    fits := OverflowFits(mem, id, targets);
    if fits {
      log := [Accepted(id, test, buffers, true)];
      var gate, memGate := Overflowing(moved, buffers, id, Gate, probe);
      if OverflowFits(memGate, id, targets) {
        log := log + [Accepted(id, gate, buffers, true)];
        test, mem := gate, memGate;
      }
    } else {
      test, mem := Overflowing(moved, buffers, id, Attn, probe);
      fits := OverflowFits(mem, id, targets);
      if fits {
        log := [Accepted(id, test, buffers, true)];
      }
    }
  }

  lemma LogExtra(log: seq<Accepted>, s: State, moved: seq<Layers>, after: State, id: nat, targets: seq<int>, probe: Probe)
    requires log != [] && log[|log| - 1] == Accepted(id, after.alloc, after.buffers, true) && Keeps(s.alloc, moved)
    requires OfDevice(log, id)
    requires forall k :: 0 <= k < |log| ==> Within(log[k], targets, probe) && SameCounts(moved, log[k].alloc)
    ensures Log(log, s, after, targets, probe)
  {
    hide Within, Keeps;
    forall k | 0 <= k < |log|
      ensures Keeps(s.alloc, log[k].alloc)
    {
      OverflowKeeps(s.alloc, moved, log[k].alloc, |moved|);
    }
  }

  /** There is a layer to move, but on a device before the one that receives it no partial one. */
  predicate Wraps(s: State, id: nat)
    requires id < |s.alloc| && s.dense < |s.alloc|
  {
    id < s.dense && s.alloc[s.dense].nLayer > 0 && s.alloc[s.dense].nPart == 0
  }

  /** What does not fit of the first partial layer goes to the next device, if there is one. */
  function OverflowBuffers(s: State, id: nat): seq<Buffer>
    requires id < |s.alloc| == |s.buffers|
  {
    if id < |s.alloc| - 1 then s.buffers[id := Device(id + 1)] else s.buffers
  }

  /** What does not fit goes to the next device; the other buffers stay. */
  lemma OverflowToNext(s: State, id: nat)
    requires id < |s.alloc| == |s.buffers|
    ensures var buffers := OverflowBuffers(s, id);
            && |buffers| == |s.buffers|
            && (forall j :: 0 <= j < |buffers| && j != id ==> buffers[j] == s.buffers[j])
            && (id + 1 < |s.alloc| ==> buffers[id] == Device(id + 1))
            && (id + 1 == |s.alloc| ==> buffers[id] == s.buffers[id])
  {
  }

  /** There is a layer to take: any layer, but for the last device not the output layer. */
  predicate HasLayer(s: State, id: nat)
    requires id < |s.alloc| && s.dense < |s.alloc|
  {
    s.alloc[s.dense].nLayer >= if id == |s.alloc| - 1 then 2 else 1
  }

  /** With one more layer of which this fraction is kept, the device or the next one was measured above its target. */
  ghost predicate Refuses(s: State, id: nat, fraction: Fraction, targets: seq<int>, probe: Probe)
    requires id < |s.alloc| == |s.buffers| == |targets| && s.dense < |s.alloc| && s.alloc[s.dense].nLayer > 0
  {
    var moved := ExtraLayer(s.alloc, s.dense, id);
    !OverflowFits(Measure(probe, moved[id := moved[id].(overflow := fraction)], OverflowBuffers(s, id)), id, targets)
  }

  /** The state after device `id` was tried with one more layer, of which the largest fraction that fits is kept. */
  function Extra(s: State, id: nat, targets: seq<int>, probe: Probe): Outcome
    requires id <= s.dense < |s.alloc| == |s.buffers| == |targets|
  {
    if s.alloc[s.dense].nLayer <= if id < |s.alloc| - 1 then 0 else 1 then Converted(s)
    else
      var moved, buffers := ExtraLayer(s.alloc, s.dense, id), OverflowBuffers(s, id);
      match Choice(moved, buffers, id, targets, probe)
      case None => Converted(s)
      case Some(fraction) =>
        var test := moved[id := moved[id].(overflow := fraction)];
        var dense := if moved[s.dense].nPart == 0 then s.dense + 1 else s.dense;
        var next := State(test, buffers, Measure(probe, test, buffers), dense);
        if Wraps(s, id) then PartUnderflow(id, next) else Converted(next)
  }

  /**
    With no layer to take, or when neither up nor attention was measured to fit, nothing changes. Otherwise the largest
    fraction that was measured to fit is kept, and the overflow goes to the next device.
   */
  lemma ExtraMeaning(s: State, id: nat, targets: seq<int>, probe: Probe)
    requires id <= s.dense < |s.alloc| == |s.buffers| == |targets|
    ensures var r := Extra(s, id, targets, probe);
            if !HasLayer(s, id) || (Refuses(s, id, Up, targets, probe) && Refuses(s, id, Attn, targets, probe)) then
              r == Converted(s)
            else
              var moved := ExtraLayer(s.alloc, s.dense, id);
              && r.state.alloc == moved[id := moved[id].(overflow := r.state.alloc[id].overflow)]
              && (r.state.alloc[id].overflow == Gate <==>
                    !Refuses(s, id, Up, targets, probe) && !Refuses(s, id, Gate, targets, probe))
              && (r.state.alloc[id].overflow == Up <==>
                    !Refuses(s, id, Up, targets, probe) && Refuses(s, id, Gate, targets, probe))
              && (r.state.alloc[id].overflow == Attn <==> Refuses(s, id, Up, targets, probe))
              && r.state.buffers == OverflowBuffers(s, id)
              && r.state.mem == Measure(probe, r.state.alloc, r.state.buffers)
              && r.state.dense == s.dense + (if moved[s.dense].nPart == 0 then 1 else 0)
              && (r.PartUnderflow? <==> Wraps(s, id)) && (r.Converted? <==> !Wraps(s, id))
  {
    hide OverflowFits, ExtraLayer, OverflowBuffers, Measure, Wraps;
  }

  /**
    Tries to fit at least part of one more layer on device `id`: attention and up, then more or less than that. An
    allocation whose number of partial layers wrapped is measured like any other; only if it is accepted it is reported.
   */
  method TryExtraLayer(s: State, id: nat, targets: seq<int>, probe: Probe) returns (r: Outcome, ghost log: seq<Accepted>)
    requires id <= s.dense < |s.alloc| == |targets| && Consistent(s, probe) && Ready(s.alloc, s.dense, id)
    requires Total(s.alloc) < 0xFFFF_FFFF
    ensures r == Extra(s, id, targets, probe)
    ensures r.PartUnderflow? <==>
      Wraps(s, id) && Choice(ExtraLayer(s.alloc, s.dense, id), OverflowBuffers(s, id), id, targets, probe).Some?
    ensures r.PartUnderflow? ==> r.id == id && Consistent(r.state, probe) && r.state.dense == s.dense
                                 && SameCounts(ExtraLayer(s.alloc, s.dense, id), r.state.alloc)
                                 && id < s.dense == |s.alloc| - 1 && r.state.alloc[s.dense].nPart == 0xFFFF_FFFF
                                 && OverflowFits(r.state.mem, id, targets)
    ensures !r.DivisionByZero? && !r.PastLastDevice?
    ensures r.Converted? ==> Consistent(r.state, probe) && Keeps(s.alloc, r.state.alloc)
    ensures r.Converted? ==> Log(log, s, r.state, targets, probe) && OfDevice(log, id)
    ensures r.Converted? ==> r.state == s || OverflowFits(r.state.mem, id, targets)
    ensures r.Converted? ==> s.dense <= r.state.dense <= |s.alloc| && Ready(r.state.alloc, r.state.dense, id)
    ensures r.Converted? ==> forall j :: 0 <= j < |s.alloc| ==> r.state.alloc[j].Full() == s.alloc[j].Full()
    ensures r.Converted? && r.state != s ==>
              && s.alloc[s.dense].nLayer > 0 && SameCounts(ExtraLayer(s.alloc, s.dense, id), r.state.alloc)
              && r.state.buffers == OverflowBuffers(s, id)
  {
    hide Log, Total, SumTo, FractionFits, Choice;
    LogNothing(s, id, targets, probe);
    log := [];
    if s.alloc[s.dense].nLayer <= if id < |s.alloc| - 1 then 0 else 1 {
      return Converted(s), log;
    }
    EachBelow(s.alloc, 0xFFFF_FFFF);
    ExtraLayerWellFormedIff(s.alloc, s.dense, id);
    var moved := ExtraLayer(s.alloc, s.dense, id);
    var denseTest := if moved[s.dense].nPart == 0 then s.dense + 1 else s.dense;
    var buffers := OverflowBuffers(s, id);
    var fits, test, memTest;
    fits, test, memTest, log := ChooseFraction(moved, buffers, id, targets, probe);
    if !fits {
      return Converted(s), log;
    }
    r := Converted(State(test, buffers, memTest, denseTest));
    if Wraps(s, id) {
      return PartUnderflow(id, r.state), log;
    }
    ExtraLayerEffect(s.alloc, s.dense, id);
    OverflowKeeps(s.alloc, moved, test, |s.alloc|);
    LogExtra(log, s, moved, r.state, id, targets, probe);
  }

  // ----- all devices

  /** The first of the devices before `n` and back from there that all have layers. */
  function DenseFrom(alloc: seq<Layers>, n: nat): (dense: nat)
    requires n <= |alloc|
    ensures dense <= n && (forall j :: dense <= j < n ==> alloc[j].nLayer > 0) && (dense > 0 ==> alloc[dense - 1].nLayer == 0)
  {
    if n > 0 && alloc[n - 1].nLayer > 0 then DenseFrom(alloc, n - 1) else n
  }

  /** The first of the devices at the end that all have layers. */
  method DenseStart(alloc: seq<Layers>) returns (dense: nat)
    ensures dense == DenseFrom(alloc, |alloc|)
  {
    dense := |alloc|;
    while dense > 0 && alloc[dense - 1].nLayer > 0
      invariant dense <= |alloc|
      invariant DenseFrom(alloc, dense) == DenseFrom(alloc, |alloc|)
    {
      dense := dense - 1;
    }
  }

  /** The state in which the conversion starts. */
  function Start(alloc: seq<Layers>, probe: Probe): State {
    State(alloc, AllCpu(|alloc|), Measure(probe, alloc, AllCpu(|alloc|)), DenseFrom(alloc, |alloc|))
  }

  /** One device of the conversion: the state before its search, after it, and after the try for one more layer. */
  datatype Visit = Visit(before: State, filled: State, after: State)

  /** Device `id` can be filled from this state. */
  ghost predicate Fillable(s: State, id: nat, targets: seq<int>, probe: Probe) {
    |s.alloc| == |targets| && Consistent(s, probe) && Untouched(s.alloc, s.dense, id)
  }

  /** What the search for device `id` and the try for one more layer give. */
  function NextOutcome(s: State, id: nat, targets: seq<int>, probe: Probe): (r: Outcome)
    requires Fillable(s, id, targets, probe)
  {
    var r := SearchFrom(s, id, targets[id], probe);
    SearchShape(s, id, targets[id], probe);
    if r.Converted? then Extra(r.state, id, targets, probe) else r
  }

  /**
    The search for device `id` ended with everything converted, or just below an allocation measured not to fit, or there
    was nothing to convert; then it was tried with one more layer.
   */
  ghost predicate Served(v: Visit, id: nat, targets: seq<int>, probe: Probe) {
    && Fillable(v.before, id, targets, probe)
    && SearchFrom(v.before, id, targets[id], probe) == Converted(v.filled)
    && Filled(v.before, v.filled, id, targets[id], probe)
    && (|| v.filled.alloc == UpperBound(v.before.alloc, id, v.before.dense)
        || Stopped(v.before, v.filled, id, targets[id], probe))
    && NextOutcome(v.before, id, targets, probe) == Converted(v.after)
  }

  /** The devices from the first one on were served one after the other, which led from `start` to `reached`. */
  ghost predicate Visits(trace: seq<Visit>, start: State, reached: State, targets: seq<int>, probe: Probe) {
    && (forall k :: 0 <= k < |trace| ==> Served(trace[k], k, targets, probe))
    && (forall k :: 0 < k < |trace| ==> trace[k].before == trace[k - 1].after)
    && (if trace == [] then reached == start else trace[0].before == start && reached == trace[|trace| - 1].after)
  }

  /** Later devices leave the full layers of the earlier ones alone. */
  ghost predicate StillFull(trace: seq<Visit>, reached: State) {
    forall k :: 0 <= k < |trace| ==>
      |reached.alloc| == |trace[k].filled.alloc| && k < |reached.alloc|
      && reached.alloc[k].Full() == trace[k].filled.alloc[k].Full()
  }

  /** There is no device left to fill, or nothing left to convert. */
  predicate Done(reached: State, id: nat) {
    id > reached.dense || reached.dense >= |reached.alloc|
  }

  lemma VisitsNothing(start: State, targets: seq<int>, probe: Probe)
    ensures Visits([], start, start, targets, probe) && StillFull([], start)
  {
  }

  lemma VisitsNext(trace: seq<Visit>, start: State, v: Visit, targets: seq<int>, probe: Probe)
    requires Visits(trace, start, v.before, targets, probe) && Served(v, |trace|, targets, probe)
    requires StillFull(trace, v.before) && |v.after.alloc| == |v.before.alloc|
    requires forall j :: 0 <= j < |v.after.alloc| ==> v.after.alloc[j].Full() == v.filled.alloc[j].Full()
    ensures Visits(trace + [v], start, v.after, targets, probe) && StillFull(trace + [v], v.after)
  {
    hide Stopped, UpperBound, SearchFrom, NextOutcome, Untouched, Keeps, Consistent, Ready;
    var trace' := trace + [v];
    assert forall k :: 0 <= k < |trace| ==> trace'[k] == trace[k];
    assert trace'[|trace|] == v;
  }

  /** Converts dense-only layers to full ones, front to back. `trace` are the devices that were served until `reached`. */
  method ConvertFrontToBack(alloc: seq<Layers>, mem: seq<int>, targets: seq<int>, probe: Probe)
    returns (r: Outcome, ghost log: seq<Accepted>, ghost trace: seq<Visit>, ghost reached: State)
    requires alloc != [] && |alloc| == |targets| && mem == Measure(probe, alloc, AllCpu(|alloc|))
    requires WellFormed(alloc) && Total(alloc) < 0xFFFF_FFFF
    requires forall j :: 0 <= j < |alloc| && alloc[j].nLayer > 0 ==> DenseOnly(alloc[j], j == |alloc| - 1)
    ensures Visits(trace, Start(alloc, probe), reached, targets, probe) && StillFull(trace, reached)
    ensures r.Converted? ==> r.state == reached && Done(reached, |trace|)
    ensures !r.Converted? ==> !Done(reached, |trace|) && Fillable(reached, |trace|, targets, probe)
                              && r == NextOutcome(reached, |trace|, targets, probe)
    ensures r.Converted? ==> Consistent(r.state, probe) && Keeps(alloc, r.state.alloc)
    ensures r.Converted? ==> Log(log, State(alloc, AllCpu(|alloc|), mem, 0), r.state, targets, probe)
    ensures !r.Converted? ==> r.id == |trace| < |alloc| == |r.state.alloc| && Consistent(r.state, probe)
    ensures r.PartUnderflow? ==> r.id < |alloc| - 1 == r.state.dense && OverflowFits(r.state.mem, r.id, targets)
                                 && r.state.alloc[|alloc| - 1].nPart == 0xFFFF_FFFF
    ensures r.PastLastDevice? ==> r.id < |alloc| - 1 && alloc[|alloc| - 1].Full() > 1 && r.state.dense == |alloc|
                                  && Keeps(alloc, r.state.alloc) && r.state.mem[r.id] <= targets[r.id]
    ensures r.DivisionByZero? ==> Keeps(alloc, r.state.alloc) && targets[r.id] < r.state.mem[r.id]
  {
    hide Log, Filled, Ends, Stopped, UpperBound, SearchFrom, Extra, Visits, StillFull, Served, NextOutcome;
    hide DenseFrom, ExtraLayer, OverflowBuffers, Choice, Keeps, Total, OverflowFits, OutputFull, PartFrom;
    hide Measure, OfDevice, DenseOnly, Uncounted;
    var nd := |alloc|;
    var dense := DenseStart(alloc);
    ghost var start := Start(alloc, probe);
    var s := State(alloc, AllCpu(nd), mem, dense);
    assert start == s;
    hide Start;
    log, trace, reached := [], [], s;
    LogNothing(s, 0, targets, probe);
    VisitsNothing(s, targets, probe);
    KeepsItself(alloc);
    var id := 0;
    while id <= s.dense && s.dense < nd
      invariant id == |trace| <= nd && |s.alloc| == nd && s.dense <= nd && reached == s
      invariant Consistent(s, probe) && Keeps(alloc, s.alloc)
      invariant Log(log, start, s, targets, probe) && forall k :: 0 <= k < |log| ==> log[k].id < id
      invariant Visits(trace, start, s, targets, probe) && StillFull(trace, s)
      invariant id <= s.dense ==> forall j :: s.dense <= j < nd ==> DenseOnly(s.alloc[j], j == nd - 1)
      invariant id < nd ==> s.alloc[nd - 1].Full() <= alloc[nd - 1].Full()
      decreases nd - id
    {
      ghost var part;
      KeptShape(alloc, s.alloc);
      NextIs(s, id, targets, probe);
      r, part := SearchDevice(s, id, targets, probe);
      if !r.Converted? {
        SearchFails(s, alloc, r, id, targets[id], probe);
        return;
      }
      FilledMeans(s, r.state, id, targets[id], probe);
      LogAppend(log, part, start, s, r.state, id, targets, probe);
      KeepsOn(alloc, s.alloc, r.state.alloc);
      KeptShape(alloc, r.state.alloc);
      log, s := log + part, r.state;
      r, part := TryExtraLayer(s, id, targets, probe);
      if !r.Converted? {
        return;
      }
      LogAppend(log, part, start, s, r.state, id, targets, probe);
      KeepsOn(alloc, s.alloc, r.state.alloc);
      ServedMeans(Visit(reached, s, r.state), id, targets, probe);
      VisitsNext(trace, start, Visit(reached, s, r.state), targets, probe);
      log, trace, reached, s := log + part, trace + [Visit(reached, s, r.state)], r.state, r.state;
      id := id + 1;
    }
    r := Converted(s);
    LogFrom(log, start, State(alloc, AllCpu(nd), mem, 0), s, targets, probe);
  }

  lemma NextIs(s: State, id: nat, targets: seq<int>, probe: Probe)
    requires Fillable(s, id, targets, probe)
    ensures var r := SearchFrom(s, id, targets[id], probe);
            && (!r.Converted? ==> NextOutcome(s, id, targets, probe) == r)
            && (r.Converted? ==> id <= r.state.dense < |r.state.alloc| == |r.state.buffers| == |targets|
                                 && NextOutcome(s, id, targets, probe) == Extra(r.state, id, targets, probe))
  {
    hide SearchFrom, Extra;
    SearchShape(s, id, targets[id], probe);
  }

  lemma ServedMeans(v: Visit, id: nat, targets: seq<int>, probe: Probe)
    requires Fillable(v.before, id, targets, probe)
    requires SearchFrom(v.before, id, targets[id], probe) == Converted(v.filled)
    requires Filled(v.before, v.filled, id, targets[id], probe)
    requires v.filled.alloc == UpperBound(v.before.alloc, id, v.before.dense)
             || Stopped(v.before, v.filled, id, targets[id], probe)
    requires NextOutcome(v.before, id, targets, probe) == Converted(v.after)
    ensures Served(v, id, targets, probe)
  {
  }

  lemma FilledMeans(s: State, end: State, id: nat, target: int, probe: Probe)
    requires Filled(s, end, id, target, probe)
    ensures |end.alloc| == |s.alloc| && Consistent(end, probe) && Keeps(s.alloc, end.alloc)
    ensures id < |s.alloc| && s.dense <= end.dense < |s.alloc| && Ready(end.alloc, end.dense, id)
    ensures id < |s.alloc| - 1 ==> end.alloc[|s.alloc| - 1].Full() <= s.alloc[|s.alloc| - 1].Full()
  {
  }

  lemma SearchFails(s: State, alloc: seq<Layers>, r: Outcome, id: nat, target: int, probe: Probe)
    requires id < |s.alloc| == |s.mem| == |alloc| && Keeps(alloc, s.alloc) && Consistent(s, probe)
    requires r.PastLastDevice? ==> Ends(s, r, id, target, probe)
    requires r.DivisionByZero? ==> r.id == id && r.state == s && target < s.mem[id]
    ensures r.PastLastDevice? ==> r.id == id < |s.alloc| - 1 && s.alloc[|alloc| - 1].Full() > 1 && r.state.dense == |alloc|
                                  && |r.state.alloc| == |r.state.mem| == |alloc| && Consistent(r.state, probe)
                                  && Keeps(alloc, r.state.alloc) && r.state.mem[id] <= target
    ensures r.DivisionByZero? ==> Keeps(alloc, r.state.alloc) && target < r.state.mem[id]
  {
    hide Searching, Stopped;
    if r.PastLastDevice? {
      KeepsOn(alloc, s.alloc, r.state.alloc);
    }
  }

  lemma LogFrom(log: seq<Accepted>, a: State, b: State, after: State, targets: seq<int>, probe: Probe)
    requires Log(log, a, after, targets, probe) && b.alloc == a.alloc && b.buffers == a.buffers
    ensures Log(log, b, after, targets, probe)
  {
  }
}
