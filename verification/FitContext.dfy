/** Deciding whether anything must change, and shrinking the context by linear interpolation. */
module FitContext {
  import opened FitLayers

  /** Memory of one device, or of the host when there is no device. */
  datatype Pool = Pool(free: int, used: int, model: nat)

  datatype Decision =
    | NoChange
    | FitsByContext(nCtx: nat)
    | GoOn(nCtx: nat)
    | HostTooSmall
    | DivisionByZero

  function SumFree(pools: seq<Pool>, n: nat): int
    requires n <= |pools|
  {
    if n == 0 then 0 else SumFree(pools, n - 1) + pools[n - 1].free
  }

  function SumUsed(pools: seq<Pool>, n: nat): int
    requires n <= |pools|
  {
    if n == 0 then 0 else SumUsed(pools, n - 1) + pools[n - 1].used
  }

  function SumModel(pools: seq<Pool>, n: nat): nat
    requires n <= |pools|
  {
    if n == 0 then 0 else SumModel(pools, n - 1) + pools[n - 1].model
  }

  function Sum(values: seq<int>, n: nat): int
    requires n <= |values|
  {
    if n == 0 then 0 else Sum(values, n - 1) + values[n - 1]
  }

  ghost predicate MeetsMargins(pools: seq<Pool>, margins: seq<int>)
    requires |pools| <= |margins|
  {
    forall i :: 0 <= i < |pools| ==> pools[i].free - pools[i].used >= margins[i]
  }

  // ----- interpolation

  /** The context between `ctxMin` and `ctxMax` at which memory is expected to reach `target`, rounded down to 256. */
  function Interpolate(ctxMin: nat, ctxMax: nat, target: int, usedMin: int, used: int): (ctx: nat)
    requires ctxMin <= ctxMax && usedMin < target < used
  {
    DivBounds((ctxMax - ctxMin) * (target - usedMin), used - usedMin);
    RoundDown(ctxMin + (ctxMax - ctxMin) * (target - usedMin) / (used - usedMin), ctxMin)
  }

  /** The largest multiple of 256 up to `guess`, but at least `ctxMin`. */
  function RoundDown(guess: nat, ctxMin: nat): (ctx: nat)
    requires ctxMin <= guess
    ensures ctxMin <= ctx <= guess && (ctx == ctxMin || ctx % 256 == 0)
    ensures forall x :: ctx < x && x % 256 == 0 ==> guess < x
  {
    var rounded := guess - guess % 256;
    if rounded < ctxMin then ctxMin else rounded
  }

  lemma InterpolateInRange(ctxMin: nat, ctxMax: nat, target: int, usedMin: int, used: int)
    requires ctxMin < ctxMax && usedMin < target < used
    ensures var ctx := Interpolate(ctxMin, ctxMax, target, usedMin, used);
            && ctxMin <= ctx < ctxMax
            && (ctx == ctxMin || ctx % 256 == 0)
            && (ctx - ctxMin) * (used - usedMin) <= (ctxMax - ctxMin) * (target - usedMin)
  {
    var reach := (ctxMax - ctxMin) * (target - usedMin);
    DivBounds(reach, used - usedMin);
    QuotientBelow(ctxMax - ctxMin, target - usedMin, used - usedMin);
    var part := reach / (used - usedMin);
    MulMonotone(RoundDown(ctxMin + part, ctxMin) - ctxMin, part, used - usedMin);
  }

  lemma InterpolateLargest(ctxMin: nat, ctxMax: nat, target: int, usedMin: int, used: int, x: nat)
    requires ctxMin < ctxMax && usedMin < target < used
    requires Interpolate(ctxMin, ctxMax, target, usedMin, used) < x && x % 256 == 0
    ensures (ctxMax - ctxMin) * (target - usedMin) < (x - ctxMin) * (used - usedMin)
  {
    var reach := (ctxMax - ctxMin) * (target - usedMin);
    DivBounds(reach, used - usedMin);
    MulMonotone(reach / (used - usedMin) + 1, x - ctxMin, used - usedMin);
  }

  /** On or under the straight line through its end points. */
  ghost predicate UnderChord(memory: nat -> int, lo: nat, hi: nat) {
    forall x: nat :: lo <= x <= hi ==> memory(x) * (hi - lo) <= memory(lo) * (hi - x) + memory(hi) * (x - lo)
  }

  ghost predicate OnChord(memory: nat -> int, lo: nat, hi: nat) {
    forall x: nat :: lo <= x <= hi ==> memory(x) * (hi - lo) == memory(lo) * (hi - x) + memory(hi) * (x - lo)
  }

  ghost predicate Convex(memory: nat -> int, lo: nat, hi: nat) {
    forall a: nat, b: nat, c: nat :: lo <= a <= b <= c <= hi ==>
      memory(b) * (c - a) <= memory(a) * (c - b) + memory(c) * (b - a)
  }

  lemma ConvexIsUnderChord(memory: nat -> int, lo: nat, hi: nat)
    requires Convex(memory, lo, hi)
    ensures UnderChord(memory, lo, hi)
  {
  }

  /** If memory use is under the chord, as every convex function is, the interpolated context meets the target. */
  lemma InterpolationFits(memory: nat -> int, ctxMin: nat, ctxMax: nat, target: int)
    requires ctxMin < ctxMax && memory(ctxMin) < target < memory(ctxMax)
    requires UnderChord(memory, ctxMin, ctxMax)
    ensures memory(Interpolate(ctxMin, ctxMax, target, memory(ctxMin), memory(ctxMax))) <= target
  {
    var usedMin, used := memory(ctxMin), memory(ctxMax);
    var ctx := Interpolate(ctxMin, ctxMax, target, usedMin, used);
    InterpolateInRange(ctxMin, ctxMax, target, usedMin, used);
    ChordBelow(memory(ctx), usedMin, used, target, ctx - ctxMin, ctxMax - ctxMin);
  }

  lemma ChordBelow(m: int, usedMin: int, used: int, target: int, part: int, whole: int)
    requires 0 < whole && part * (used - usedMin) <= whole * (target - usedMin)
    requires m * whole <= usedMin * (whole - part) + used * part
    ensures m <= target
  {
  }

  /** If memory use is affine in the context, no larger multiple of 256 meets the target. */
  lemma InterpolationIsLargest(memory: nat -> int, ctxMin: nat, ctxMax: nat, target: int, x: nat)
    requires ctxMin < ctxMax && memory(ctxMin) < target < memory(ctxMax) && OnChord(memory, ctxMin, ctxMax)
    requires Interpolate(ctxMin, ctxMax, target, memory(ctxMin), memory(ctxMax)) < x <= ctxMax && x % 256 == 0
    ensures target < memory(x)
  {
    var usedMin, used := memory(ctxMin), memory(ctxMax);
    InterpolateLargest(ctxMin, ctxMax, target, usedMin, used, x);
    assert memory(x) * (ctxMax - ctxMin) == usedMin * (ctxMax - x) + used * (x - ctxMin);
    ChordAbove(memory(x), usedMin, used, target, x - ctxMin, ctxMax - ctxMin);
  }

  lemma ChordAbove(m: int, usedMin: int, used: int, target: int, part: int, whole: int)
    requires 0 < whole && whole * (target - usedMin) < part * (used - usedMin)
    requires m * whole == usedMin * (whole - part) + used * part
    ensures target < m
  {
    assert usedMin * (whole - part) + used * part == usedMin * whole + part * (used - usedMin);
    assert whole * (target - usedMin) == target * whole - usedMin * whole;
    MulCancels(target, m, whole);
  }

  // ----- the decision

  /** What the model may use in total; with several devices some is held back for layers that cannot be split. */
  function Target(pools: seq<Pool>, margins: seq<int>, several: bool, layers: nat, moe: bool): int
    requires |pools| <= |margins| && (several ==> layers > 0)
  {
    var target := SumFree(pools, |pools|) - Sum(margins, |pools|);
    if several then
      target - (|pools| + 1) * (SumModel(pools, |pools|) / layers) / (if moe then 6 else 2)
    else target
  }

  lemma TargetBelowUse(pools: seq<Pool>, margins: seq<int>, several: bool, layers: nat, moe: bool)
    requires |pools| <= |margins| && (several ==> layers > 0)
    requires SumFree(pools, |pools|) - SumUsed(pools, |pools|) - Sum(margins, |pools|) < 0
    ensures Target(pools, margins, several, layers, moe) < SumUsed(pools, |pools|)
  {
  }

  /**
    With several devices the amount held back is the whole part of (nd + 1) / 2 layers of a dense model and of (nd + 1) / 6
    layers of a mixture of experts; a layer takes the whole part of the model's size per layer on devices.
   */
  lemma HeldBack(pools: seq<Pool>, margins: seq<int>, layers: nat, moe: bool) returns (perLayer: nat, held: nat)
    requires |pools| <= |margins| && layers > 0
    ensures perLayer * layers <= SumModel(pools, |pools|) < (perLayer + 1) * layers
    ensures moe ==> 6 * held <= (|pools| + 1) * perLayer < 6 * (held + 1)
    ensures !moe ==> 2 * held <= (|pools| + 1) * perLayer < 2 * (held + 1)
    ensures Target(pools, margins, true, layers, moe) == SumFree(pools, |pools|) - Sum(margins, |pools|) - held
    ensures Target(pools, margins, false, layers, moe) == SumFree(pools, |pools|) - Sum(margins, |pools|)
  {
    perLayer := SumModel(pools, |pools|) / layers;
    DivBounds(SumModel(pools, |pools|), layers);
    ProductNotNegative(|pools| + 1, perLayer);
    held := (|pools| + 1) * perLayer / (if moe then 6 else 2);
  }

  lemma SumsOfTwo(a: Pool, b: Pool, x: int, y: int)
    ensures SumFree([a, b], 2) == a.free + b.free && SumUsed([a, b], 2) == a.used + b.used
    ensures SumModel([a, b], 2) == a.model + b.model && Sum([x, y], 2) == x + y
  {
    assert SumFree([a, b], 1) == a.free && SumUsed([a, b], 1) == a.used && SumModel([a, b], 1) == a.model;
    assert Sum([x, y], 1) == x;
  }

  /** Two devices, twelve layers of 100 each: 150 is held back for a dense model and 50 for a mixture of experts. */
  lemma TwoDevices()
    ensures var pools, margins := [Pool(1200, 900, 400), Pool(800, 1300, 800)], [30, 20];
            && Shrinks(pools, margins, 0, 4096, 131072) && !Shrinks(pools, margins, 4096, 4096, 131072)
            && !Shrinks(pools, margins, 0, 4096, 4096) && !Shrinks(pools, [-100, -100], 0, 4096, 131072)
            && DeviceLayers(-1, 12) == 12 && SumUsed(pools, 2) == 2200
            && Target(pools, margins, true, 12, false) == 1800 && Target(pools, margins, true, 12, true) == 1900
            && Interpolate(4096, 131072, 1800, 1000, 2200) == 88576 && Interpolate(4096, 131072, 1900, 1000, 2200) == 99328
  {
    SumsOfTwo(Pool(1200, 900, 400), Pool(800, 1300, 800), 30, 20);
    SumsOfTwo(Pool(1200, 900, 400), Pool(800, 1300, 800), -100, -100);
  }

  /** Layers that the parameters put on devices; the number asked for is converted to an unsigned 32-bit number. */
  function DeviceLayers(nGpuLayers: int, hpNgl: nat): (layers: nat)
    ensures layers == 0 <==> hpNgl == 0 || AsUint32(nGpuLayers) == 0
    ensures layers <= hpNgl && layers <= AsUint32(nGpuLayers) && (layers == hpNgl || layers == AsUint32(nGpuLayers))
  {
    if AsUint32(nGpuLayers) < hpNgl then AsUint32(nGpuLayers) else hpNgl
  }

  /** Memory is short over all devices, and there is context to save. */
  predicate Shrinks(pools: seq<Pool>, margins: seq<int>, nCtx: nat, ctxMin: nat, ctxTrain: nat)
    requires |pools| == |margins|
  {
    SumFree(pools, |pools|) - SumUsed(pools, |pools|) - Sum(margins, |pools|) < 0 && nCtx == 0 && ctxMin < ctxTrain
  }

  /**
    The first two steps of fitting. `pools` are the devices, or only the host if `onHost`; `usedAtMin` is their use with
    the minimum context.
   */
  method DecideContext(pools: seq<Pool>, onHost: bool, margins: seq<int>, nCtx: nat, ctxMin: nat, ctxTrain: nat,
                       nGpuLayers: int, hpNgl: nat, moe: bool, usedAtMin: seq<int>)
    returns (r: Decision)
    requires 0 < |pools| == |margins| == |usedAtMin| && (onHost ==> |pools| == 1)
    ensures r == NoChange <==> MeetsMargins(pools, margins)
    ensures r.DivisionByZero? <==> !MeetsMargins(pools, margins) && Shrinks(pools, margins, nCtx, ctxMin, ctxTrain)
                                   && |pools| > 1 && (hpNgl == 0 || AsUint32(nGpuLayers) == 0)
    ensures r.FitsByContext? <==> !MeetsMargins(pools, margins) && Shrinks(pools, margins, nCtx, ctxMin, ctxTrain)
                                  && |pools| == 1 && usedAtMin[0] < pools[0].free - margins[0]
    ensures r.FitsByContext? ==> pools[0].free - margins[0] < pools[0].used
                                 && r.nCtx == Interpolate(ctxMin, ctxTrain, pools[0].free - margins[0], usedAtMin[0], pools[0].used)
    ensures r.HostTooSmall? <==> onHost && r != NoChange && !r.FitsByContext?
    ensures r.GoOn? && !Shrinks(pools, margins, nCtx, ctxMin, ctxTrain) ==> r.nCtx == nCtx
    ensures r.GoOn? && Shrinks(pools, margins, nCtx, ctxMin, ctxTrain) ==>
              var layers := DeviceLayers(nGpuLayers, hpNgl);
              && (|pools| > 1 ==> layers > 0)
              && var target := Target(pools, margins, |pools| > 1, layers, moe);
              var usedMin := Sum(usedAtMin, |pools|);
              && target < SumUsed(pools, |pools|)
              && ctxMin <= r.nCtx < ctxTrain
              && (r.nCtx == if usedMin < target then Interpolate(ctxMin, ctxTrain, target, usedMin, SumUsed(pools, |pools|))
                            else ctxMin)
  {
    var n := |pools|;
    var free, used, model, margin, usedMin := 0, 0, 0, 0, 0;
    var changesNeeded := false;
    var i := 0;
    while i < n
      invariant i <= n && free == SumFree(pools, i) && used == SumUsed(pools, i) && model == SumModel(pools, i)
      invariant margin == Sum(margins, i) && usedMin == Sum(usedAtMin, i)
      invariant changesNeeded <==> exists k :: 0 <= k < i && pools[k].free - pools[k].used < margins[k]
    {
      free, used, model := free + pools[i].free, used + pools[i].used, model + pools[i].model;
      margin, usedMin := margin + margins[i], usedMin + usedAtMin[i];
      changesNeeded := changesNeeded || pools[i].free - pools[i].used < margins[i];
      i := i + 1;
    }
    if !changesNeeded {
      return NoChange;
    }
    if n == 1 {
      OnePool(pools, margins, usedAtMin);
    }
    var ctx := nCtx;
    if free - used - margin < 0 && nCtx == 0 && ctxMin < ctxTrain {
      var layers := DeviceLayers(nGpuLayers, hpNgl);
      if n > 1 && layers == 0 {
        return DivisionByZero;
      }
      var target := Target(pools, margins, n > 1, layers, moe);
      TargetBelowUse(pools, margins, n > 1, layers, moe);
      ctx := ctxMin;
      if usedMin < target {
        ctx := Interpolate(ctxMin, ctxTrain, target, usedMin, used);
        InterpolateInRange(ctxMin, ctxTrain, target, usedMin, used);
        if n <= 1 {
          return FitsByContext(ctx);
        }
      }
    }
    r := if onHost then HostTooSmall else GoOn(ctx);
  }

  lemma OnePool(pools: seq<Pool>, margins: seq<int>, usedAtMin: seq<int>)
    requires |pools| == |margins| == |usedAtMin| == 1
    ensures SumFree(pools, 1) == pools[0].free && SumUsed(pools, 1) == pools[0].used
    ensures Sum(margins, 1) == margins[0] && Sum(usedAtMin, 1) == usedAtMin[0]
  {
  }
}
