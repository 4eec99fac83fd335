/** One measurement for which a whole assignment, fill and conversion, runs past the last device. */
module FitRunsPast {
  import opened Basics
  import opened FitLayers
  import opened FitSteps
  import F = FitFill
  import S = FitSearch
  import C = FitConvert
  import O = FitOverrides
  import A = Fit

  lemma TwoSingleSteps()
    ensures F.AfterSteps([1, 1], true, true) == Layers(2, 0, Moe)
  {
    var steps: seq<pos> := [1, 1];
    assert steps[..1] == [1] && steps[..1][..0] == [];
    assert F.AfterSteps(steps[..1], true, true) == Layers(1, 0, Moe);
  }

  /** Memory use that is the sum over the layers: a full layer takes 10, a dense-only layer 9, the output layer 1. */
  function SumOfLayers(): Probe {
    (alloc: seq<Layers>, buffers: seq<Buffer>, id: nat) =>
      if id < |alloc| then Use(alloc[id], id == |alloc| - 1) else 0
  }

  function Use(layers: Layers, last: bool): int {
    10 * layers.Full() + 9 * layers.nPart - (if last && layers.nLayer > 0 then 9 else 0)
  }

  lemma Uses(a: Layers, b: Layers)
    ensures var mem := Measure(SumOfLayers(), [a, b], AllCpu(2));
            mem[0] == Use(a, false) == SumOfLayers()([a, b], AllCpu(2), 0)
            && mem[1] == Use(b, true) == SumOfLayers()([a, b], AllCpu(2), 1)
  {
  }

  lemma SingleSteps()
    ensures StepSize(4, 11, 0, 28) == StepSize(3, 11, 1, 28) == StepSize(2, 11, 11, 28) == 1
    ensures StepSize(3, 26, 18, 30) == 2
  {
  }

  /** One round of the search for the last of two devices. */
  lemma Round(low: Layers, high: Layers, step: pos)
    requires low.nLayer + 1 < high.nLayer && Use(low, true) != Use(high, true)
    requires StepSize(high.nLayer - low.nLayer, 11, Use(low, true), Use(high, true)) == step
    ensures var test := F.AddLayers(low, step, true, true);
            F.Search([NO_LAYERS, low], [NO_LAYERS, high], 1, true, 11, SumOfLayers())
            == if Use(test, true) <= 11 then F.Search([NO_LAYERS, test], [NO_LAYERS, high], 1, true, 11, SumOfLayers())
               else F.Search([NO_LAYERS, low], [NO_LAYERS, test], 1, true, 11, SumOfLayers())
  {
    hide StepSize, F.Search, Measure, SumOfLayers, Use, F.AddLayers;
    var test := F.AddLayers(low, step, true, true);
    F.SearchNext([NO_LAYERS, low], [NO_LAYERS, high], 1, true, 11, SumOfLayers());
    Uses(NO_LAYERS, low);
    Uses(NO_LAYERS, high);
    Uses(NO_LAYERS, test);
    assert [NO_LAYERS, low][1 := test] == [NO_LAYERS, test];
  }

  /** On the last device the search accepts two single layers, and the second one stays full like the output layer. */
  lemma LastDeviceAcceptsTwo()
    ensures var r := F.FillOne([NO_LAYERS, NO_LAYERS], 1, 4, true, 11, SumOfLayers());
            r.Filled? && r.alloc == [NO_LAYERS, Layers(2, 0, Moe)]
  {
    hide StepSize, F.Search, F.FillOne, Measure, SumOfLayers;
    var one, two, three, all := Layers(1, 0, Moe), Layers(2, 0, Moe), Layers(3, 0, Moe), Layers(4, 3, Moe);
    SingleSteps();
    F.FillOneMeans([NO_LAYERS, NO_LAYERS], 1, 4, true, 11, SumOfLayers());
    assert [NO_LAYERS, NO_LAYERS][1 := F.AllLayers(NO_LAYERS, 4, true, true)] == [NO_LAYERS, all];
    Uses(NO_LAYERS, all);
    Round(NO_LAYERS, all, 1);
    Round(one, all, 1);
    Round(two, all, 1);
    F.SearchNext([NO_LAYERS, two], [NO_LAYERS, three], 1, true, 11, SumOfLayers());
  }

  const TWO_EACH := [Layers(2, 2, Moe), Layers(2, 0, Moe)]

  /** The fill gives both devices two layers: dense-only ones to the first, full ones to the last. */
  lemma FillGivesTwoEach()
    ensures var fill := F.FillFrom(F.Unfilled(2), 2, 3, true, [26, 11], SumOfLayers());
            fill.Filled? && fill.alloc == TWO_EACH
  {
    hide F.FillOne, F.FillFrom, Measure, SumOfLayers;
    var targets, probe := [26, 11], SumOfLayers();
    var none, last := [NO_LAYERS, NO_LAYERS], [NO_LAYERS, Layers(2, 0, Moe)];
    assert F.Unfilled(2) == none;
    F.FillNext(none, 2, 3, true, targets, probe);
    LastDeviceAcceptsTwo();
    assert SumTo(last, 0) == SumTo(last, 1) == 0 && Total(last) == 2;
    F.FillNext(last, 1, 3, true, targets, probe);
    F.FillOneMeans(last, 0, 2, true, 26, probe);
    assert last[0 := F.AllLayers(NO_LAYERS, 2, true, false)] == TWO_EACH;
    Uses(TWO_EACH[0], TWO_EACH[1]);
    F.FillNext(TWO_EACH, 0, 3, true, targets, probe);
  }

  /** Where the conversion starts, and the upper bound of its first search. */
  lemma StartOfTwoEach()
    ensures C.Start(TWO_EACH, SumOfLayers()) == S.State(TWO_EACH, AllCpu(2), Measure(SumOfLayers(), TWO_EACH, AllCpu(2)), 0)
    ensures Untouched(TWO_EACH, 0, 0) && UpperBound(TWO_EACH, 0, 0) == [Layers(3, 0, Moe), Layers(1, 0, Moe)]
    ensures PartFrom(TWO_EACH, 0) == 2
  {
    hide Measure, SumOfLayers, UpperBound, C.DenseFrom;
    AllDense();
    UpperBoundOfTwoEach();
  }

  lemma AllDense()
    ensures C.DenseFrom(TWO_EACH, 2) == 0
  {
    assert C.DenseFrom(TWO_EACH, 0) == C.DenseFrom(TWO_EACH, 1) == 0;
  }

  lemma UpperBoundOfTwoEach()
    ensures Untouched(TWO_EACH, 0, 0) && PartFrom(TWO_EACH, 0) == 2
    ensures UpperBound(TWO_EACH, 0, 0) == [Layers(3, 0, Moe), Layers(1, 0, Moe)]
  {
    hide UpperBound, S.RunsPast;
    S.RunsPastExample();
    assert PartFrom(TWO_EACH, 2) == 0 && PartFrom(TWO_EACH, 1) == 0;
  }

  /** The test that converts both dense-only layers: it fits, and there is nothing left to convert. */
  lemma ConvertsBoth()
    ensures Untouched(TWO_EACH, 0, 0)
    ensures var t := Steps(TWO_EACH, 0, 0, 2);
            t.dense == 2 && Measure(SumOfLayers(), t.alloc, AllCpu(2))[0] == 20
  {
    hide Measure, SumOfLayers, Steps, PartFrom;
    StartOfTwoEach();
    StepsEffect(TWO_EACH, 0, 0, 2);
    var t := Steps(TWO_EACH, 0, 0, 2).alloc;
    assert t == [t[0], t[1]];
    Uses(t[0], t[1]);
  }

  /** For the first device the conversion tries to convert both dense-only layers, which fits, and runs past the last one. */
  lemma ConversionRunsPast()
    ensures var s := C.Start(TWO_EACH, SumOfLayers());
            && s.dense == 0 && Untouched(s.alloc, 0, 0) && S.Consistent(s, SumOfLayers())
            && S.SearchFrom(s, 0, 26, SumOfLayers()).PastLastDevice? && S.SearchFrom(s, 0, 26, SumOfLayers()).id == 0
  {
    hide StepSize, Measure, SumOfLayers, S.Search, Steps, UpperBound, C.Start;
    var probe, high := SumOfLayers(), [Layers(3, 0, Moe), Layers(1, 0, Moe)];
    var s := C.Start(TWO_EACH, probe);
    StartOfTwoEach();
    ConvertsBoth();
    Uses(TWO_EACH[0], TWO_EACH[1]);
    Uses(high[0], high[1]);
    SingleSteps();
    S.FirstTestPast(s, high, 0, 26, probe);
  }

  /**
    With one measurement, the fill accepts two single layers on the last device, so that two full layers stay there, and
    the conversion that follows runs past the last device.
   */
  lemma TwoSingleStepsRunPast()
    ensures var fill := F.FillFrom(F.Unfilled(2), 2, 3, true, [26, 11], SumOfLayers());
            && fill.Filled? && fill.alloc == [Layers(2, 2, Moe), F.AfterSteps([1, 1], true, true)]
            && var s := C.Start(fill.alloc, SumOfLayers());
            && Untouched(s.alloc, s.dense, 0) && S.Consistent(s, SumOfLayers())
            && S.SearchFrom(s, 0, 26, SumOfLayers()).PastLastDevice? && S.SearchFrom(s, 0, 26, SumOfLayers()).id == 0
  {
    hide F.FillFrom, S.SearchFrom, SumOfLayers, C.Start, F.AfterSteps;
    TwoSingleSteps();
    FillGivesTwoEach();
    ConversionRunsPast();
  }

  /**
    Four layers on two devices, and memory use that is the sum over the layers: the assignment runs past the last device
    whatever else is given.
   */
  method RunsPastLastDevice(ntbo: nat, tensorSplit: array<nat>, table: array<O.Slot>) returns (r: A.Result)
    requires 1 <= ntbo <= table.Length && 2 <= tensorSplit.Length
    modifies tensorSplit, table
    ensures r.PastLastDevice? && r.id == 0
  {
    ghost var count, h;
    r, count, h := A.AssignLayers(3, true, 1, [26, 11], SumOfLayers(), ntbo, tensorSplit, table);
    FillGivesTwoEach();
    OnlyFailure(h, r);
  }

  lemma OnlyFailure(h: A.History, r: A.Result)
    requires h.filled == TWO_EACH && A.Follows(h, r, [26, 11], SumOfLayers())
    ensures r.PastLastDevice? && r.id == 0
  {
    hide S.SearchFrom, SumOfLayers, C.StillFull;
    ConversionRunsPast();
    assert h.trace == [];
  }
}
