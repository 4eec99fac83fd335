/** Layers per device, the memory probe, and the 32- and 64-bit arithmetic shared by the steps of the device-memory fitter. */
module FitLayers {

  /** How much of a layer stays on the device when the layer is only partly assigned to it. */
  datatype Fraction = Attn | Up | Gate | Moe

  /** Where the rest of a partly assigned layer goes. */
  datatype Buffer = Cpu | Device(id: nat)

  /** The layers of one device: `nPart` of its `nLayer` layers are partial. */
  datatype Layers = Layers(nLayer: nat, nPart: nat, overflow: Fraction) {
    function Full(): int {
      nLayer - nPart
    }
  }

  const NO_LAYERS := Layers(0, 0, Moe)

  /** Measured memory use of a device for layers per device and overflow buffers. Nothing is known about it. */
  type Probe = (seq<Layers>, seq<Buffer>, nat) -> int

  function Measure(probe: Probe, alloc: seq<Layers>, buffers: seq<Buffer>): (mem: seq<int>)
    ensures |mem| == |alloc|
  {
    seq(|alloc|, id requires 0 <= id < |alloc| => probe(alloc, buffers, id))
  }

  function AllCpu(n: nat): (buffers: seq<Buffer>)
    ensures |buffers| == n && forall i :: 0 <= i < n ==> buffers[i] == Cpu
  {
    seq(n, _ => Cpu)
  }

  /** Layers on the first `n` devices. */
  function SumTo(alloc: seq<Layers>, n: nat): nat
    requires n <= |alloc|
  {
    if n == 0 then 0 else SumTo(alloc, n - 1) + alloc[n - 1].nLayer
  }

  function Total(alloc: seq<Layers>): nat {
    SumTo(alloc, |alloc|)
  }

  /** Partial layers on the devices from `id` on. */
  function PartFrom(alloc: seq<Layers>, id: nat): nat
    requires id <= |alloc|
    decreases |alloc| - id
  {
    if id == |alloc| then 0 else alloc[id].nPart + PartFrom(alloc, id + 1)
  }

  lemma PartFromNext(alloc: seq<Layers>, id: nat)
    requires id <= |alloc|
    ensures PartFrom(alloc, id) == if id == |alloc| then 0 else alloc[id].nPart + PartFrom(alloc, id + 1)
  {
  }

  ghost predicate WellFormed(alloc: seq<Layers>) {
    forall i :: 0 <= i < |alloc| ==> alloc[i].nPart <= alloc[i].nLayer
  }

  /** Integer division as C++ performs it: the quotient is truncated towards zero. */
  function TruncDiv(a: int, b: int): (q: int)
    requires b != 0
    ensures 0 <= a && 0 < b ==> q == a / b
    ensures 0 <= a ==> 0 <= a - q * b < if b < 0 then -b else b
    ensures a <= 0 ==> (if b < 0 then b else -b) < a - q * b <= 0
  {
    if 0 <= a then a / b else -((-a) / b)
  }

  /** The number modulo 2^32. */
  function AsUint32(x: int): (r: nat)
    ensures 0 <= x < 0x1_0000_0000 ==> r == x
    ensures r < 0x1_0000_0000 && (-0x1_0000_0000 <= x < 0 ==> r == x + 0x1_0000_0000)
  {
    x % 0x1_0000_0000
  }

  /** The interpolated step between a state using `mem` and one using `memHigh`, clamped to [1, delta - 1]. */
  function StepSize(delta: nat, target: int, mem: int, memHigh: int): (step: nat)
    requires delta > 1 && memHigh != mem
    ensures 1 <= step < delta
  {
    var guess := AsUint32(TruncDiv(delta * (target - mem), memHigh - mem));
    var atLeastOne := if guess < 1 then 1 else guess;
    if atLeastOne < delta - 1 then atLeastOne else delta - 1
  }

  /** The step is the largest one that meets the target on the straight line between the two states, unless it is clamped. */
  lemma StepSizeInterpolates(delta: nat, target: int, mem: int, memHigh: int)
    requires 1 < delta < 0x1_0000_0000 && mem <= target < memHigh
    ensures var step := StepSize(delta, target, mem, memHigh);
            && (step == 1 || step * (memHigh - mem) <= delta * (target - mem))
            && (step == delta - 1 || delta * (target - mem) < (step + 1) * (memHigh - mem))
  {
    var width, reach := memHigh - mem, delta * (target - mem);
    var guess := reach / width;
    ProductNotNegative(delta, target - mem);
    DivBounds(reach, width);
    QuotientBelow(delta, target - mem, width);
    StepIsGuess(delta, target, mem, memHigh, guess);
    hide StepSize;
    var step := StepSize(delta, target, mem, memHigh);
    if step < delta - 1 {
      MulMonotone(guess + 1, step + 1, width);
    }
    if 1 < step {
      MulMonotone(step, guess, width);
    }
  }

  /**
    A device that is above its target between two measurements: the quotient is negative or too large. A negative one wraps
    around, so the step is as large as it can be, unless the quotient is truncated to zero.
   */
  lemma StepSizeAboveTarget(delta: nat, target: int, mem: int, memHigh: int)
    requires 1 < delta < 0x8000_0000 && target < mem && target < memHigh && mem != memHigh
    requires -0x8000_0000 < TruncDiv(delta * (target - mem), memHigh - mem) < 0x8000_0000
    ensures StepSize(delta, target, mem, memHigh)
            == if mem < memHigh && delta * (mem - target) < memHigh - mem then 1 else delta - 1
  {
    var q := TruncDiv(delta * (target - mem), memHigh - mem);
    QuotientAboveTarget(delta, mem - target, memHigh - mem, q);
  }

  lemma QuotientAboveTarget(delta: int, over: int, width: int, q: int)
    requires 1 < delta && 0 < over && width != 0 && -over < width && q == TruncDiv(delta * -over, width)
    ensures 0 < width && delta * over < width ==> q == 0
    ensures 0 < width && delta * over >= width ==> q < 0
    ensures width < 0 ==> delta <= q
  {
    assert delta * -over == -(delta * over);
    if width < 0 {
      MulMonotone(-width, over, delta);
      if q < delta {
        MulMonotone(q + 1, delta, -width);
      }
    } else if q >= 0 {
      MulMonotone(0, q, width);
    } else if delta * over < width {
      MulMonotone(q, -1, width);
    }
  }

  /** Clamping the quotient to [1, delta - 1]. */
  lemma StepIsGuess(delta: nat, target: int, mem: int, memHigh: int, guess: int)
    requires 1 < delta < 0x1_0000_0000 && mem < memHigh && 0 <= delta * (target - mem)
    requires guess == delta * (target - mem) / (memHigh - mem) && 0 <= guess < delta
    ensures var step := StepSize(delta, target, mem, memHigh);
            (step == 1 || step <= guess) && (step == delta - 1 || guess <= step)
  {
  }

  lemma ProductNotNegative(a: nat, b: nat)
    ensures 0 <= a * b
  {
  }

  lemma MulMonotone(a: int, b: int, factor: nat)
    requires a <= b
    ensures a * factor <= b * factor
  {
    ProductNotNegative(b - a, factor);
  }

  lemma DivBounds(a: int, b: int)
    requires 0 <= a && 0 < b
    ensures 0 <= a / b && a / b * b <= a < (a / b + 1) * b
  {
  }

  lemma QuotientBelow(delta: nat, part: nat, width: nat)
    requires part < width && 0 < delta
    ensures delta * part / width < delta
  {
    DivBounds(delta * part, width);
    MulCancels(delta * part / width, delta, width);
  }

  lemma MulCancels(a: int, b: int, factor: nat)
    requires a * factor < b * factor
    ensures a < b
  {
    assert (b - a) * factor > 0;
  }

  lemma {:induction false} SumToUpdate(alloc: seq<Layers>, id: nat, layers: Layers, n: nat)
    requires id < |alloc| && n <= |alloc|
    ensures SumTo(alloc[id := layers], n) == SumTo(alloc, n) + (if id < n then layers.nLayer - alloc[id].nLayer else 0)
  {
    if n > 0 {
      SumToUpdate(alloc, id, layers, n - 1);
    }
  }

  lemma {:induction false} SumToMonotone(alloc: seq<Layers>, m: nat, n: nat)
    requires m <= n <= |alloc|
    ensures SumTo(alloc, m) <= SumTo(alloc, n)
    decreases n
  {
    if m < n {
      SumToMonotone(alloc, m, n - 1);
    }
  }

  lemma {:induction false} PartFromUpdate(alloc: seq<Layers>, id: nat, layers: Layers, n: nat)
    requires id < |alloc| && n <= |alloc|
    ensures PartFrom(alloc[id := layers], n) == PartFrom(alloc, n) + (if n <= id then layers.nPart - alloc[id].nPart else 0)
    decreases |alloc| - n
  {
    if n < |alloc| {
      PartFromUpdate(alloc, id, layers, n + 1);
    }
  }
}
