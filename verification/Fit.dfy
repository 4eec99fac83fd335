/** The whole assignment of layers to devices: dense fill, conversion of dense-only layers, override table. */
module Fit {
  import opened FitLayers
  import opened FitSteps
  import F = FitFill
  import S = FitSearch
  import C = FitConvert
  import O = FitOverrides

  datatype Result =
    | Assigned(alloc: seq<Layers>, buffers: seq<Buffer>, table: O.Outcome)
    | DivisionByZero(id: nat, alloc: seq<Layers>, buffers: seq<Buffer>)
    | PartUnderflow(id: nat, alloc: seq<Layers>, buffers: seq<Buffer>)
    | PastLastDevice(id: nat, alloc: seq<Layers>, buffers: seq<Buffer>)

  lemma FillIsWellFormed(alloc: seq<Layers>, hpNgl: nat, moe: bool, targets: seq<int>, probe: Probe)
    requires alloc != [] && |alloc| == |targets|
    requires forall id :: 0 <= id < |alloc| ==> F.Placed(alloc, id, hpNgl, moe, targets, probe)
    ensures WellFormed(alloc) && OutputFull(alloc) && Keeps(alloc, alloc)
    ensures moe ==> forall id :: 0 <= id < |alloc| && alloc[id].nLayer > 0 ==> DenseOnly(alloc[id], id == |alloc| - 1)
  {
    hide F.Settled;
    forall id | 0 <= id < |alloc|
      ensures F.FillShape(alloc[id], moe, id == |alloc| - 1)
    {
      assert F.Placed(alloc, id, hpNgl, moe, targets, probe);
    }
  }

  /** The accepted tests of the conversion lead from the fill to what is assigned, each within its targets. */
  ghost predicate Assigns(filled: seq<Layers>, alloc: seq<Layers>, buffers: seq<Buffer>, log: seq<S.Accepted>,
                          targets: seq<int>, probe: Probe)
  {
    S.Log(log, S.State(filled, AllCpu(|filled|), [], 0), S.State(alloc, buffers, [], 0), targets, probe)
  }

  lemma ConversionAssigns(filled: seq<Layers>, mem: seq<int>, end: S.State, log: seq<S.Accepted>, targets: seq<int>, probe: Probe)
    requires S.Log(log, S.State(filled, AllCpu(|filled|), mem, 0), end, targets, probe) && Keeps(filled, end.alloc)
    requires S.Consistent(end, probe)
    ensures Assigns(filled, end.alloc, end.buffers, log, targets, probe)
    ensures WellFormed(end.alloc) && Total(end.alloc) == Total(filled) && |end.alloc| == |end.buffers| == |filled|
    ensures OutputFull(filled) ==> OutputFull(end.alloc)
  {
  }

  lemma NothingConverted(alloc: seq<Layers>, buffers: seq<Buffer>, targets: seq<int>, probe: Probe)
    requires buffers == AllCpu(|alloc|)
    ensures Assigns(alloc, alloc, buffers, [], targets, probe)
  {
  }

  /** How the conversion of a fill went until it ended or failed: which devices were served, and what came next. */
  datatype History = History(filled: seq<Layers>, log: seq<S.Accepted>, trace: seq<C.Visit>, reached: S.State)

  const NOTHING := History([], [], [], S.State([], [], [], 0))

  /** The failure of the conversion. */
  function Failure(r: S.Outcome): (f: Result)
    requires !r.Converted?
    ensures !f.Assigned?
  {
    match r
    case DivisionByZero(id, state) => DivisionByZero(id, state.alloc, state.buffers)
    case PartUnderflow(id, state) => PartUnderflow(id, state.alloc, state.buffers)
    case PastLastDevice(id, state, _) => PastLastDevice(id, state.alloc, state.buffers)
  }

  /**
    Every device up to `reached` ended with everything converted or just below an allocation measured not to fit, and
    still has these full layers; the result is what was reached, or the failure that came next.
   */
  ghost predicate Follows(h: History, r: Result, targets: seq<int>, probe: Probe) {
    && C.Visits(h.trace, C.Start(h.filled, probe), h.reached, targets, probe) && C.StillFull(h.trace, h.reached)
    && (r.Assigned? ==> C.Done(h.reached, |h.trace|) && r.alloc == h.reached.alloc && r.buffers == h.reached.buffers)
    && (!r.Assigned? ==> !C.Done(h.reached, |h.trace|) && C.Fillable(h.reached, |h.trace|, targets, probe)
                         && !C.NextOutcome(h.reached, |h.trace|, targets, probe).Converted?
                         && r == Failure(C.NextOutcome(h.reached, |h.trace|, targets, probe)))
  }

  /**
    Assigns layers to at least one device: the fill, and for a mixture-of-experts model with memory left the conversion.
    Each failure names the device and an allocation with the measurement that led to it.
   */
  method AssignLayers(hpNgl: nat, moe: bool, surplusCpuMoe: int, targets: seq<int>, probe: Probe,
                      ntbo: nat, tensorSplit: array<nat>, table: array<O.Slot>)
    returns (r: Result, ghost count: nat, ghost h: History)
    requires targets != [] && hpNgl + 1 < 0xFFFF_FFFF
    requires 1 <= ntbo <= table.Length && |targets| <= tensorSplit.Length
    modifies tensorSplit, table
    ensures r.Assigned? ==> |r.alloc| == |r.buffers| == |targets| && WellFormed(r.alloc) && Total(r.alloc) <= hpNgl + 1
    ensures r.Assigned? ==> OutputFull(r.alloc) && Keeps(h.filled, r.alloc)
    ensures r.Assigned? ==> forall id :: 0 <= id < |targets| ==> F.Placed(h.filled, id, hpNgl, moe, targets, probe)
    ensures r.Assigned? ==> Assigns(h.filled, r.alloc, r.buffers, h.log, targets, probe)
    ensures r.Assigned? ==> O.TableAfter(r.table, O.Overrides(hpNgl, r.alloc, r.buffers, |r.alloc|), count, ntbo, table)
    ensures r.Assigned? && hpNgl < O.MAX_BLOCKS && hpNgl + 2 <= ntbo ==> r.table == O.Written(Total(r.alloc))
    ensures r.Assigned? && !(moe && surplusCpuMoe > 0) ==>
      r.alloc == h.filled && r.buffers == AllCpu(|targets|) && h.log == []
    ensures F.EmptyDevicesFit(targets, probe) && !(moe && surplusCpuMoe > 0) ==> r.Assigned?
    ensures !(moe && surplusCpuMoe > 0) ==> !r.PartUnderflow? && !r.PastLastDevice?
    ensures !r.Assigned? ==> r.id < |targets| == |r.alloc|
    ensures r.DivisionByZero? ==>
      targets[r.id] < probe(r.alloc, r.buffers, r.id) && (r.alloc[r.id].nLayer == 0 || Keeps(h.filled, r.alloc))
    ensures r.DivisionByZero? && F.EmptyDevicesFit(targets, probe) ==> Keeps(h.filled, r.alloc)
    ensures r.PartUnderflow? ==> r.id < |targets| - 1 && r.alloc[|targets| - 1].nPart == 0xFFFF_FFFF
                                 && probe(r.alloc, r.buffers, r.id) < targets[r.id]
    ensures r.PastLastDevice? ==> r.id < |targets| - 1 && h.filled != [] && h.filled[|h.filled| - 1].Full() > 1
                                  && Keeps(h.filled, r.alloc) && probe(r.alloc, r.buffers, r.id) <= targets[r.id]
    ensures var fill := F.FillFrom(F.Unfilled(|targets|), |targets|, hpNgl, moe, targets, probe);
            && (fill.DivisionByZero? ==> r == DivisionByZero(fill.id, fill.state, AllCpu(|targets|)))
            && (fill.Filled? ==> fill.alloc == h.filled)
            && (fill.Filled? && moe && surplusCpuMoe > 0 ==> Follows(h, r, targets, probe))
  {
    hide F.Placed, O.Overrides, S.Log, Keeps, O.Reaches, F.FillFrom, C.Visits, C.StillFull, C.NextOutcome;
    count, h := 0, NOTHING;
    var fill := F.FillBackToFront(hpNgl, moe, targets, probe);
    if fill.DivisionByZero? {
      return DivisionByZero(fill.id, fill.state, AllCpu(|targets|)), count, h;
    }
    var nd := |targets|;
    var alloc, buffers := fill.alloc, AllCpu(nd);
    h := h.(filled := alloc);
    FillIsWellFormed(alloc, hpNgl, moe, targets, probe);
    NothingConverted(alloc, buffers, targets, probe);
    if moe && surplusCpuMoe > 0 {
      var converted;
      ghost var log, trace, reached;
      converted, log, trace, reached := C.ConvertFrontToBack(alloc, fill.mem, targets, probe);
      h := History(alloc, log, trace, reached);
      match converted {
        case Converted(state) => alloc, buffers := state.alloc, state.buffers;
        case _ => return Failure(converted), count, h;
      }
      ConversionAssigns(h.filled, fill.mem, converted.state, log, targets, probe);
    }
    var written;
    written, count := O.SetLayers(hpNgl, alloc, buffers, ntbo, tensorSplit, table);
    r := Assigned(alloc, buffers, written);
    if hpNgl < O.MAX_BLOCKS && hpNgl + 2 <= ntbo {
      O.SmallModelsFit(hpNgl, alloc, buffers, ntbo);
    }
  }
}
