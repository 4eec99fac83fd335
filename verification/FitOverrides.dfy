/** Writing the layers per device to the tensor split and to the bounded, terminated table of buffer overrides. */
module FitOverrides {
  import opened FitLayers

  /** A slot of the table: the terminator, or the tensors of block `il` that leave the device, and where they go. */
  datatype Slot = Terminator | Override(il: nat, fraction: Fraction, buffer: Buffer)

  datatype Outcome = Written(nGpuLayers: nat) | TooManyOverrides | BlockTooLarge

  const MAX_BLOCKS := 1000

  /** Block indices of device `id` start after the blocks left to the CPU and those of the earlier devices. */
  function SliceStart(hpNgl: nat, alloc: seq<Layers>, id: nat): (start: nat)
    requires id <= |alloc| && Total(alloc) <= hpNgl + 1
  {
    hpNgl + 1 - Total(alloc) + SumTo(alloc, id)
  }

  /** The overrides of one device whose blocks start at `start`: the last `nPart` blocks, the first of them special. */
  function DeviceOverrides(start: nat, layers: Layers, buffer: Buffer): (slots: seq<Slot>)
    requires layers.nPart <= layers.nLayer
    ensures |slots| == layers.nPart
  {
    seq(layers.nPart, k requires 0 <= k < layers.nPart =>
      Override(start + layers.Full() + k, if k == 0 then layers.overflow else Moe, if k == 0 then buffer else Cpu))
  }

  /** The overrides of the first `n` devices. */
  function Overrides(hpNgl: nat, alloc: seq<Layers>, buffers: seq<Buffer>, n: nat): (slots: seq<Slot>)
    requires n <= |alloc| == |buffers| && Total(alloc) <= hpNgl + 1 && WellFormed(alloc)
  {
    if n == 0 then []
    else Overrides(hpNgl, alloc, buffers, n - 1)
         + DeviceOverrides(SliceStart(hpNgl, alloc, n - 1), alloc[n - 1], buffers[n - 1])
  }

  /** Block `il` is one of the last `nPart` blocks of the slice of device `id`. */
  predicate PartialBlock(hpNgl: nat, alloc: seq<Layers>, id: nat, il: nat)
    requires id < |alloc| && Total(alloc) <= hpNgl + 1
  {
    SliceStart(hpNgl, alloc, id) + alloc[id].Full() <= il < SliceStart(hpNgl, alloc, id + 1)
  }

  /** The slices tile the blocks that go to devices: every such block lies in exactly one of them. */
  lemma {:induction false} SlicesTile(hpNgl: nat, alloc: seq<Layers>, il: nat) returns (id: nat)
    requires Total(alloc) <= hpNgl + 1 && hpNgl + 1 - Total(alloc) <= il < hpNgl + 1
    ensures id < |alloc| && SliceStart(hpNgl, alloc, id) <= il < SliceStart(hpNgl, alloc, id + 1)
    ensures SliceStart(hpNgl, alloc, id + 1) == SliceStart(hpNgl, alloc, id) + alloc[id].nLayer
    ensures forall j :: 0 <= j < |alloc| && j != id ==>
              !(SliceStart(hpNgl, alloc, j) <= il < SliceStart(hpNgl, alloc, j + 1))
  {
    id := |alloc|;
    while !(SliceStart(hpNgl, alloc, id) <= il)
      invariant id <= |alloc| && il < SliceStart(hpNgl, alloc, |alloc|)
      invariant id < |alloc| ==> il < SliceStart(hpNgl, alloc, id + 1)
      decreases id
    {
      id := id - 1;
    }
    forall j | 0 <= j < |alloc| && j != id
      ensures !(SliceStart(hpNgl, alloc, j) <= il < SliceStart(hpNgl, alloc, j + 1))
    {
      if j < id {
        SumToMonotone(alloc, j + 1, id);
      } else {
        SumToMonotone(alloc, id + 1, j);
      }
    }
  }

  /** In numbers: the last `nPart` blocks before the slice of the next device. */
  lemma PartialBlockIff(hpNgl: nat, alloc: seq<Layers>, id: nat, il: nat)
    requires id < |alloc| && Total(alloc) <= hpNgl + 1
    ensures var end := hpNgl + 1 - Total(alloc) + SumTo(alloc, id) + alloc[id].nLayer;
            PartialBlock(hpNgl, alloc, id, il) <==> end - alloc[id].nPart <= il < end
  {
  }

  function PartTo(alloc: seq<Layers>, n: nat): nat
    requires n <= |alloc|
  {
    if n == 0 then 0 else PartTo(alloc, n - 1) + alloc[n - 1].nPart
  }

  ghost predicate Increasing(slots: seq<Slot>, below: nat) {
    && (forall i :: 0 <= i < |slots| ==> slots[i].Override? && slots[i].il < below)
    && (forall i, j :: 0 <= i < j < |slots| ==> slots[i].il < slots[j].il)
  }

  /** Emitted block indices strictly increase, stay inside the slices, and are as many as there are partial layers. */
  lemma {:induction false} OverridesIncrease(hpNgl: nat, alloc: seq<Layers>, buffers: seq<Buffer>, n: nat)
    requires n <= |alloc| == |buffers| && Total(alloc) <= hpNgl + 1 && WellFormed(alloc)
    ensures Increasing(Overrides(hpNgl, alloc, buffers, n), SliceStart(hpNgl, alloc, n))
    ensures |Overrides(hpNgl, alloc, buffers, n)| == PartTo(alloc, n) <= SumTo(alloc, n)
  {
    if n > 0 {
      OverridesIncrease(hpNgl, alloc, buffers, n - 1);
      var start := SliceStart(hpNgl, alloc, n - 1);
      var last := DeviceOverrides(start, alloc[n - 1], buffers[n - 1]);
      assert forall i :: 0 <= i < |last| ==> last[i].il == start + alloc[n - 1].Full() + i;
    }
  }

  /** A block is emitted iff it is a partial block of some device. */
  lemma {:induction false} EmittedIff(hpNgl: nat, alloc: seq<Layers>, buffers: seq<Buffer>, n: nat, il: nat)
    requires n <= |alloc| == |buffers| && Total(alloc) <= hpNgl + 1 && WellFormed(alloc)
    ensures (exists s :: s in Overrides(hpNgl, alloc, buffers, n) && s.Override? && s.il == il)
            <==> (exists id :: 0 <= id < n && PartialBlock(hpNgl, alloc, id, il))
  {
    if n > 0 {
      EmittedIff(hpNgl, alloc, buffers, n - 1, il);
      var start := SliceStart(hpNgl, alloc, n - 1);
      var init := Overrides(hpNgl, alloc, buffers, n - 1);
      var last := DeviceOverrides(start, alloc[n - 1], buffers[n - 1]);
      assert forall s :: s in init + last <==> s in init || s in last;
      if PartialBlock(hpNgl, alloc, n - 1, il) {
        assert last[il - start - alloc[n - 1].Full()] in init + last;
      }
      if exists s :: s in last && s.Override? && s.il == il {
        assert PartialBlock(hpNgl, alloc, n - 1, il);
      }
    }
  }

  /**
    The first block after the full layers of a device is written with the device's own fraction and buffer. All other
    partial blocks keep their attention only and put their experts on the CPU.
   */
  lemma {:induction false} SlotOfBlock(hpNgl: nat, alloc: seq<Layers>, buffers: seq<Buffer>, n: nat, id: nat, k: nat)
    requires id < n <= |alloc| == |buffers| && Total(alloc) <= hpNgl + 1 && WellFormed(alloc)
    requires k < |Overrides(hpNgl, alloc, buffers, n)| && Overrides(hpNgl, alloc, buffers, n)[k].Override?
    requires var first := hpNgl + 1 - Total(alloc) + SumTo(alloc, id) + alloc[id].nLayer - alloc[id].nPart;
             first <= Overrides(hpNgl, alloc, buffers, n)[k].il < first + alloc[id].nPart
    ensures var first := hpNgl + 1 - Total(alloc) + SumTo(alloc, id) + alloc[id].nLayer - alloc[id].nPart;
            var slot := Overrides(hpNgl, alloc, buffers, n)[k];
            && (slot.il == first ==> slot.fraction == alloc[id].overflow && slot.buffer == buffers[id])
            && (slot.il != first ==> slot.fraction == Moe && slot.buffer == Cpu)
  {
    var init := Overrides(hpNgl, alloc, buffers, n - 1);
    var start := SliceStart(hpNgl, alloc, n - 1);
    var last := DeviceOverrides(start, alloc[n - 1], buffers[n - 1]);
    assert forall i :: 0 <= i < |last| ==> last[i].Override? && last[i].il == start + alloc[n - 1].Full() + i;
    assert Overrides(hpNgl, alloc, buffers, n)[k] == if k < |init| then init[k] else last[k - |init|];
    OverridesIncrease(hpNgl, alloc, buffers, n - 1);
    if id < n - 1 {
      SumToMonotone(alloc, id + 1, n - 1);
      assert k < |init|;
      SlotOfBlock(hpNgl, alloc, buffers, n - 1, id, k);
    } else {
      assert k >= |init|;
    }
  }

  /**
    The output layer takes the last index of the last slice, and partial layers are the tail of a slice: that index is
    emitted as soon as the last device has any partial layer.
   */
  lemma OutputIndexEmittedIff(hpNgl: nat, alloc: seq<Layers>, buffers: seq<Buffer>)
    requires |alloc| == |buffers| > 0 && Total(alloc) <= hpNgl + 1 && WellFormed(alloc)
    requires alloc[|alloc| - 1].nLayer > 0
    ensures (exists s :: s in Overrides(hpNgl, alloc, buffers, |alloc|) && s.Override? && s.il == hpNgl)
            <==> alloc[|alloc| - 1].nPart > 0
  {
    var n := |alloc|;
    EmittedIff(hpNgl, alloc, buffers, n, hpNgl);
    assert SliceStart(hpNgl, alloc, n) == hpNgl + 1;
    if alloc[n - 1].nPart > 0 {
      assert PartialBlock(hpNgl, alloc, n - 1, hpNgl);
    }
    forall id | 0 <= id < n && PartialBlock(hpNgl, alloc, id, hpNgl)
      ensures alloc[n - 1].nPart > 0
    {
      if id < n - 1 {
        SumToMonotone(alloc, id + 1, n - 1);
      }
    }
  }

  /** How far the table is filled: up to the first block index that is too large, or to the place of the last terminator. */
  ghost predicate Reaches(slots: seq<Slot>, count: nat, ntbo: nat) {
    count <= |slots| && count < ntbo && forall i :: 0 <= i < count ==> slots[i].Override? && slots[i].il < MAX_BLOCKS
  }

  /** The table holds the first `count` of the overrides, is untouched after them, and all of them are small enough. */
  twostate predicate Filled(slots: seq<Slot>, count: nat, ntbo: nat, table: array<Slot>)
    requires ntbo <= table.Length
    reads table
  {
    Reaches(slots, count, ntbo) && table[..count] == slots[..count] && table[count..] == old(table[count..])
  }

  /** What the table holds after `count` overrides were written, by the way the writing ended. */
  twostate predicate TableAfter(r: Outcome, slots: seq<Slot>, count: nat, ntbo: nat, table: array<Slot>)
    requires 1 <= ntbo <= table.Length
    reads table
  {
    && Reaches(slots, count, ntbo)
    && table[..count] == slots[..count]
    && match r
       case Written(_) => count == |slots| && table[count] == Terminator && table[count + 1..] == old(table[count + 1..])
       case TooManyOverrides => count == ntbo - 1 < |slots| && table[count] == Terminator && table[ntbo..] == old(table[ntbo..])
       case BlockTooLarge => count + 1 < ntbo && count < |slots| && slots[count].Override? && MAX_BLOCKS <= slots[count].il
                             && table[count..] == old(table[count..])
  }

  /** Writes the overrides of one device after the `itbo` overrides of the earlier ones. */
  method WriteDevice(il0: nat, layers: Layers, buffer: Buffer, ghost slots: seq<Slot>, itbo: nat, ntbo: nat, table: array<Slot>)
    returns (r: Outcome, next: nat)
    requires 1 <= ntbo <= table.Length && layers.nPart <= layers.nLayer && layers.Full() <= il0
    requires Reaches(slots, itbo, ntbo) && table[..itbo] == slots[..itbo]
    requires itbo + layers.nPart <= |slots|
    requires slots[itbo..itbo + layers.nPart] == DeviceOverrides(il0 - layers.Full(), layers, buffer)
    modifies table
    ensures r.Written? ==> next == itbo + layers.nPart && Filled(slots, next, ntbo, table)
    ensures !r.Written? ==> TableAfter(r, slots, next, ntbo, table)
  {
    next := itbo;
    var il := il0;
    ghost var mine := DeviceOverrides(il0 - layers.Full(), layers, buffer);
    while il < il0 + layers.nPart
      invariant il0 <= il <= il0 + layers.nPart && next == itbo + (il - il0)
      invariant Filled(slots, next, ntbo, table)
    {
      assert slots[next] == mine[il - il0] by {
        assert slots[itbo..itbo + layers.nPart][il - il0] == slots[next];
      }
      if next + 1 >= ntbo {
        table[next] := Terminator;
        return TooManyOverrides, next;
      }
      if il >= MAX_BLOCKS {
        return BlockTooLarge, next;
      }
      table[next] := Override(il, if il == il0 then layers.overflow else Moe, if il == il0 then buffer else Cpu);
      next := next + 1;
      il := il + 1;
    }
    r := Written(0);
  }

  lemma {:induction false} OverridesPrefix(hpNgl: nat, alloc: seq<Layers>, buffers: seq<Buffer>, m: nat, n: nat)
    requires m <= n <= |alloc| == |buffers| && Total(alloc) <= hpNgl + 1 && WellFormed(alloc)
    ensures Overrides(hpNgl, alloc, buffers, m) <= Overrides(hpNgl, alloc, buffers, n)
  {
    if m < n {
      OverridesPrefix(hpNgl, alloc, buffers, m, n - 1);
    }
  }

  /** Appending the overrides of device `id` to those of the earlier devices. */
  lemma DeviceIsNext(hpNgl: nat, alloc: seq<Layers>, buffers: seq<Buffer>, id: nat)
    requires id < |alloc| == |buffers| && Total(alloc) <= hpNgl + 1 && WellFormed(alloc)
    ensures var slots := Overrides(hpNgl, alloc, buffers, |alloc|);
            var done := |Overrides(hpNgl, alloc, buffers, id)|;
            && done + alloc[id].nPart == |Overrides(hpNgl, alloc, buffers, id + 1)| <= |slots|
            && slots[done..done + alloc[id].nPart] == DeviceOverrides(SliceStart(hpNgl, alloc, id), alloc[id], buffers[id])
  {
    OverridesPrefix(hpNgl, alloc, buffers, id + 1, |alloc|);
    var mine := DeviceOverrides(SliceStart(hpNgl, alloc, id), alloc[id], buffers[id]);
    var done := |Overrides(hpNgl, alloc, buffers, id)|;
    var upTo := Overrides(hpNgl, alloc, buffers, id + 1);
    assert upTo[done..] == mine;
    assert Overrides(hpNgl, alloc, buffers, |alloc|)[..|upTo|] == upTo;
  }

  lemma SliceNext(hpNgl: nat, alloc: seq<Layers>, id: nat)
    requires id < |alloc| && Total(alloc) <= hpNgl + 1
    ensures SliceStart(hpNgl, alloc, id + 1) == SliceStart(hpNgl, alloc, id) + alloc[id].nLayer
  {
  }

  lemma NothingWritten(hpNgl: nat, alloc: seq<Layers>, buffers: seq<Buffer>, ntbo: nat)
    requires |alloc| == |buffers| && Total(alloc) <= hpNgl + 1 && WellFormed(alloc) && 1 <= ntbo
    ensures |Overrides(hpNgl, alloc, buffers, 0)| == 0 && Reaches(Overrides(hpNgl, alloc, buffers, |alloc|), 0, ntbo)
  {
  }

  /** Writes the overrides of all devices, whose blocks start at `start`, and the terminator. */
  method WriteTable(hpNgl: nat, alloc: seq<Layers>, buffers: seq<Buffer>, start: nat, ntbo: nat, table: array<Slot>)
    returns (r: Outcome, ghost count: nat)
    requires |alloc| == |buffers| && Total(alloc) <= hpNgl + 1 && WellFormed(alloc)
    requires start == SliceStart(hpNgl, alloc, 0) && 1 <= ntbo <= table.Length
    modifies table
    ensures TableAfter(r, Overrides(hpNgl, alloc, buffers, |alloc|), count, ntbo, table)
  {
    hide Overrides, DeviceOverrides, SliceStart, Total, SumTo;
    var il0, itbo, id := start, 0, 0;
    ghost var slots := Overrides(hpNgl, alloc, buffers, |alloc|);
    NothingWritten(hpNgl, alloc, buffers, ntbo);
    while id < |alloc|
      invariant id <= |alloc| && il0 == SliceStart(hpNgl, alloc, id)
      invariant itbo == |Overrides(hpNgl, alloc, buffers, id)| && Filled(slots, itbo, ntbo, table)
    {
      DeviceIsNext(hpNgl, alloc, buffers, id);
      SliceNext(hpNgl, alloc, id);
      il0 := il0 + alloc[id].Full();
      var next;
      r, next := WriteDevice(il0, alloc[id], buffers[id], slots, itbo, ntbo, table);
      if !r.Written? {
        return r, next;
      }
      itbo := next;
      il0 := il0 + alloc[id].nPart;
      id := id + 1;
    }
    table[itbo] := Terminator;
    return Written(0), itbo;
  }

  /**
    Writes the number of layers per device and the overrides. The table holds at least `ntbo` slots; the overrides and
    the terminator are written below `ntbo` and nothing else is.
   */
  method SetLayers(hpNgl: nat, alloc: seq<Layers>, buffers: seq<Buffer>, ntbo: nat, tensorSplit: array<nat>, table: array<Slot>)
    returns (r: Outcome, ghost count: nat)
    requires |alloc| == |buffers| && Total(alloc) <= hpNgl + 1 && WellFormed(alloc)
    requires 1 <= ntbo <= table.Length && (|alloc| > 1 ==> |alloc| <= tensorSplit.Length)
    modifies tensorSplit, table
    ensures |alloc| > 1 ==> forall id :: 0 <= id < |alloc| ==> tensorSplit[id] == alloc[id].nLayer
    ensures TableAfter(r, Overrides(hpNgl, alloc, buffers, |alloc|), count, ntbo, table)
    ensures r.Written? ==> r.nGpuLayers == Total(alloc)
  {
    var nd := |alloc|;
    var nGpuLayers := 0;
    var id := 0;
    while id < nd
      invariant id <= nd && nGpuLayers == SumTo(alloc, id)
      invariant nd > 1 ==> forall k :: 0 <= k < id ==> tensorSplit[k] == alloc[k].nLayer
      invariant table[..] == old(table[..])
    {
      nGpuLayers := nGpuLayers + alloc[id].nLayer;
      if nd > 1 {
        tensorSplit[id] := alloc[id].nLayer;
      }
      id := id + 1;
    }
    r, count := WriteTable(hpNgl, alloc, buffers, hpNgl + 1 - nGpuLayers, ntbo, table);
    if r.Written? {
      r := Written(nGpuLayers);
    }
  }

  /** With block indices below 1000 and the table of the library, every override fits. */
  lemma SmallModelsFit(hpNgl: nat, alloc: seq<Layers>, buffers: seq<Buffer>, ntbo: nat)
    requires |alloc| == |buffers| && Total(alloc) <= hpNgl + 1 && WellFormed(alloc)
    requires hpNgl < MAX_BLOCKS && hpNgl + 2 <= ntbo
    ensures Reaches(Overrides(hpNgl, alloc, buffers, |alloc|), |Overrides(hpNgl, alloc, buffers, |alloc|)|, ntbo)
  {
    OverridesIncrease(hpNgl, alloc, buffers, |alloc|);
  }
}
