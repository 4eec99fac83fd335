/** Converting dense-only layers to full layers: what the upper bound of a search and a test of it do to an allocation. */
module FitSteps {
  import opened FitLayers

  /** On the last device the output layer is full, and perhaps others; elsewhere all layers are partial. */
  predicate DenseOnly(layers: Layers, last: bool) {
    if last then layers.nPart < layers.nLayer else layers.nPart == layers.nLayer
  }

  /** From device `dense` on only dense-only layers are left, not counting device `id` which is being filled. */
  ghost predicate Ready(alloc: seq<Layers>, dense: nat, id: nat) {
    && WellFormed(alloc)
    && forall j :: dense <= j < |alloc| && j != id ==> DenseOnly(alloc[j], j == |alloc| - 1)
  }

  /** Nothing has been converted to device `id` from the devices at and after `dense`. */
  ghost predicate Untouched(alloc: seq<Layers>, dense: nat, id: nat) {
    id <= dense < |alloc| && WellFormed(alloc) && forall j :: dense <= j < |alloc| ==> DenseOnly(alloc[j], j == |alloc| - 1)
  }

  /** The last device never makes the output layer partial. */
  ghost predicate OutputFull(alloc: seq<Layers>) {
    alloc != [] && (alloc[|alloc| - 1].nLayer > 0 ==> alloc[|alloc| - 1].Full() >= 1)
  }

  /** What every state of the conversion keeps of the allocation it started from. */
  ghost predicate Keeps(before: seq<Layers>, after: seq<Layers>) {
    && |after| == |before|
    && WellFormed(after)
    && Total(after) == Total(before)
    && (OutputFull(before) ==> OutputFull(after))
  }

  lemma KeepsItself(alloc: seq<Layers>)
    requires WellFormed(alloc)
    ensures Keeps(alloc, alloc)
  {
  }

  lemma KeepsOn(a: seq<Layers>, b: seq<Layers>, c: seq<Layers>)
    requires Keeps(a, b) && Keeps(b, c)
    ensures Keeps(a, c)
  {
  }

  // ----- moving layers between devices

  /** Takes `n` partial layers from device `from` and gives them to device `id` as full layers. */
  function Convert(alloc: seq<Layers>, from: nat, id: nat, n: nat): (r: seq<Layers>)
    requires from < |alloc| && id < |alloc| && n <= alloc[from].nPart <= alloc[from].nLayer
    ensures |r| == |alloc|
  {
    var taken := alloc[from := alloc[from].(nLayer := alloc[from].nLayer - n, nPart := alloc[from].nPart - n)];
    taken[id := taken[id].(nLayer := taken[id].nLayer + n)]
  }

  lemma ConvertEffect(alloc: seq<Layers>, from: nat, id: nat, n: nat)
    requires from < |alloc| && id < |alloc| && n <= alloc[from].nPart && WellFormed(alloc)
    ensures var r := Convert(alloc, from, id, n);
            && Keeps(alloc, r)
            && r[id].Full() == alloc[id].Full() + n
            && r[from].nPart == alloc[from].nPart - n
            && (from != id ==> r[from].Full() == alloc[from].Full() && r[id].nPart == alloc[id].nPart)
            && (forall j :: 0 <= j < |alloc| ==> r[j].overflow == alloc[j].overflow)
            && forall j :: 0 <= j < |alloc| && j != from && j != id ==> r[j] == alloc[j]
  {
    var taken := alloc[from := alloc[from].(nLayer := alloc[from].nLayer - n, nPart := alloc[from].nPart - n)];
    SumToUpdate(alloc, from, taken[from], |alloc|);
    SumToUpdate(taken, id, taken[id].(nLayer := taken[id].nLayer + n), |alloc|);
  }

  lemma ConvertPartFrom(alloc: seq<Layers>, from: nat, id: nat, n: nat)
    requires id <= from < |alloc| && n <= alloc[from].nPart <= alloc[from].nLayer
    ensures PartFrom(Convert(alloc, from, id, n), from) == PartFrom(alloc, from) - n
  {
    var taken := alloc[from := alloc[from].(nLayer := alloc[from].nLayer - n, nPart := alloc[from].nPart - n)];
    PartFromUpdate(alloc, from, taken[from], from);
    PartFromUpdate(taken, id, taken[id].(nLayer := taken[id].nLayer + n), from);
  }

  lemma ConvertTwice(alloc: seq<Layers>, from: nat, id: nat, m: nat, n: nat)
    requires from < |alloc| && id < |alloc| && m + n <= alloc[from].nPart <= alloc[from].nLayer
    ensures var r := Convert(alloc, from, id, m);
            n <= r[from].nPart <= r[from].nLayer && Convert(r, from, id, n) == Convert(alloc, from, id, m + n)
  {
  }

  // ----- a test

  datatype Test = Test(alloc: seq<Layers>, dense: nat)

  function Min(a: nat, b: nat): nat {
    if a < b then a else b
  }

  /** Converts `step` layers to device `id`, emptying the devices from `dense` on front to back. */
  function Steps(alloc: seq<Layers>, id: nat, dense: nat, step: nat): (t: Test)
    requires id < |alloc| && id <= dense <= |alloc| && WellFormed(alloc)
    ensures |t.alloc| == |alloc| && dense <= t.dense <= |alloc| && WellFormed(t.alloc)
    decreases |alloc| - dense
  {
    if dense == |alloc| then Test(alloc, dense)
    else
      var n := Min(step, alloc[dense].nPart);
      var next := Convert(alloc, dense, id, n);
      ConvertEffect(alloc, dense, id, n);
      if next[dense].nPart > 0 then Test(next, dense) else Steps(next, id, dense + 1, step - n)
  }

  /** What a test leaves of the other devices: their full layers, everything outside the emptied range, the overflows. */
  ghost predicate StepsOthers(alloc: seq<Layers>, id: nat, dense: nat, t: Test)
    requires id < |alloc| == |t.alloc|
  {
    && (forall j :: 0 <= j < |alloc| && j != id ==> t.alloc[j].Full() == alloc[j].Full())
    && (forall j :: 0 <= j < |alloc| ==> t.alloc[j].overflow == alloc[j].overflow)
    && (forall j :: dense <= j < t.dense && j < |alloc| ==> t.alloc[j].nPart == 0)
    && (forall j :: 0 <= j < |alloc| && j != id && (j < dense || t.dense < j) ==> t.alloc[j] == alloc[j])
    && (id < dense ==> t.alloc[id].nPart == alloc[id].nPart)
  }

  /** The layers that a test takes from the first of the devices, and what it does next. */
  lemma FirstStep(alloc: seq<Layers>, id: nat, dense: nat, step: nat) returns (n: nat, next: seq<Layers>)
    requires id < |alloc| && id <= dense < |alloc| && WellFormed(alloc)
    ensures n == Min(step, alloc[dense].nPart) && next == Convert(alloc, dense, id, n)
    ensures Keeps(alloc, next) && |next| == |alloc| && WellFormed(next) && StepsOthers(alloc, id, dense, Test(next, dense))
    ensures next[id].Full() == alloc[id].Full() + n && next[dense].nPart == alloc[dense].nPart - n
    ensures PartFrom(alloc, dense) == n + next[dense].nPart + PartFrom(next, dense + 1)
    ensures PartFrom(next, dense) == PartFrom(alloc, dense) - n
    ensures Steps(alloc, id, dense, step)
            == if next[dense].nPart > 0 then Test(next, dense) else Steps(next, id, dense + 1, step - n)
  {
    hide Keeps, PartFrom;
    n := Min(step, alloc[dense].nPart);
    next := Convert(alloc, dense, id, n);
    ConvertEffect(alloc, dense, id, n);
    KeptShape(alloc, next);
    ConvertPartFrom(alloc, dense, id, n);
    PartFromNext(next, dense);
  }

  /** A test keeps all layers. It runs past the last device exactly if there are not more than `step` to convert. */
  lemma {:induction false} StepsEffect(alloc: seq<Layers>, id: nat, dense: nat, step: nat)
    requires id < |alloc| && id <= dense <= |alloc| && WellFormed(alloc)
    ensures var t := Steps(alloc, id, dense, step);
            && Keeps(alloc, t.alloc)
            && (t.dense == |alloc| <==> PartFrom(alloc, dense) <= step)
            && (t.dense < |alloc| ==> t.alloc[t.dense].nPart > 0)
            && PartFrom(t.alloc, t.dense) == PartFrom(alloc, dense) - Min(step, PartFrom(alloc, dense))
            && t.alloc[id].Full() == alloc[id].Full() + Min(step, PartFrom(alloc, dense))
            && StepsOthers(alloc, id, dense, t)
    decreases |alloc| - dense
  {
    hide Keeps, Steps, Convert, PartFrom, StepsOthers;
    if dense == |alloc| {
      NoSteps(alloc, id, step);
    } else {
      var n, next := FirstStep(alloc, id, dense, step);
      if next[dense].nPart == 0 {
        StepsEffect(next, id, dense + 1, step - n);
        KeepsOn(alloc, next, Steps(next, id, dense + 1, step - n).alloc);
        OthersOn(alloc, next, id, dense, Steps(next, id, dense + 1, step - n));
      }
    }
  }

  lemma NoSteps(alloc: seq<Layers>, id: nat, step: nat)
    requires id < |alloc| && WellFormed(alloc)
    ensures Steps(alloc, id, |alloc|, step) == Test(alloc, |alloc|) && PartFrom(alloc, |alloc|) == 0
    ensures Keeps(alloc, alloc) && StepsOthers(alloc, id, |alloc|, Test(alloc, |alloc|))
  {
  }

  lemma OthersOn(alloc: seq<Layers>, next: seq<Layers>, id: nat, dense: nat, t: Test)
    requires id <= dense < |alloc| == |next| == |t.alloc| && dense < t.dense
    requires StepsOthers(alloc, id, dense, Test(next, dense)) && next[dense].nPart == 0 && StepsOthers(next, id, dense + 1, t)
    ensures StepsOthers(alloc, id, dense, t)
  {
  }

  /** Two tests in a row are one test. */
  lemma {:induction false} StepsCompose(alloc: seq<Layers>, id: nat, dense: nat, x: nat, y: nat)
    requires id < |alloc| && id <= dense <= |alloc| && WellFormed(alloc) && x < PartFrom(alloc, dense)
    ensures var t := Steps(alloc, id, dense, x);
            Steps(t.alloc, id, t.dense, y) == Steps(alloc, id, dense, x + y)
    decreases |alloc| - dense
  {
    hide Keeps, Steps, Convert, PartFrom, StepsOthers;
    PartFromNext(alloc, dense);
    var n, next := FirstStep(alloc, id, dense, x);
    var m, both := FirstStep(alloc, id, dense, x + y);
    if next[dense].nPart > 0 {
      var k, rest := FirstStep(next, id, dense, y);
      ConvertTwice(alloc, dense, id, n, k);
    } else {
      StepsCompose(next, id, dense + 1, x - n, y);
    }
  }

  /** Asking for more layers than there are converts all there are. */
  lemma {:induction false} StepsSaturate(alloc: seq<Layers>, id: nat, dense: nat, step: nat)
    requires id < |alloc| && id <= dense <= |alloc| && WellFormed(alloc) && PartFrom(alloc, dense) <= step
    ensures Steps(alloc, id, dense, step) == Steps(alloc, id, dense, PartFrom(alloc, dense))
    decreases |alloc| - dense
  {
    hide Keeps;
    PartFromNext(alloc, dense);
    if dense < |alloc| {
      var part := alloc[dense].nPart;
      ConvertEffect(alloc, dense, id, part);
      ConvertPartFrom(alloc, dense, id, part);
      var next := Convert(alloc, dense, id, part);
      PartFromNext(next, dense);
      StepsSaturate(next, id, dense + 1, step - part);
    }
  }

  /** The loop of a test. */
  method ConvertSteps(alloc: seq<Layers>, id: nat, dense: nat, step: nat) returns (test: seq<Layers>, denseTest: nat)
    requires id < |alloc| && id <= dense <= |alloc| && WellFormed(alloc)
    ensures Test(test, denseTest) == Steps(alloc, id, dense, step)
  {
    hide Keeps;
    test, denseTest := alloc, dense;
    var converted := 0;
    while denseTest < |alloc|
      invariant dense <= denseTest <= |alloc| == |test| && WellFormed(test) && converted <= step
      invariant Steps(test, id, denseTest, step - converted) == Steps(alloc, id, dense, step)
      decreases |alloc| - denseTest
    {
      var n := if step - converted < test[denseTest].nPart then step - converted else test[denseTest].nPart;
      ConvertEffect(test, denseTest, id, n);
      KeptShape(test, Convert(test, denseTest, id, n));
      test := Convert(test, denseTest, id, n);
      converted := converted + n;
      if test[denseTest].nPart > 0 {
        return;
      }
      denseTest := denseTest + 1;
    }
  }

  lemma KeptShape(before: seq<Layers>, after: seq<Layers>)
    requires Keeps(before, after)
    ensures |after| == |before| && WellFormed(after) && Total(after) == Total(before)
  {
  }

  // ----- the upper bound

  /** The full layers of the last device that the upper bound of the search counts although no test converts them. */
  function Uncounted(alloc: seq<Layers>, id: nat): int
    requires alloc != []
  {
    if id < |alloc| - 1 then alloc[|alloc| - 1].Full() - 1 else 0
  }

  /** All dense-only layers become full layers of device `id`, and so do the full layers of the last device except one. */
  function UpperBound(alloc: seq<Layers>, id: nat, dense: nat): (high: seq<Layers>)
    requires Untouched(alloc, dense, id)
    ensures |high| == |alloc|
  {
    seq(|alloc|, j requires 0 <= j < |alloc| =>
      if j == id then
        var part := if id < dense then alloc[id].nPart else 0;
        alloc[id].(nLayer := alloc[id].Full() + PartFrom(alloc, dense) + Uncounted(alloc, id) + part, nPart := part)
      else if j < dense then alloc[j]
      else alloc[j].(nLayer := if j < |alloc| - 1 then 0 else 1, nPart := 0))
  }

  /** The loop that computes the upper bound. */
  method MoveAll(alloc: seq<Layers>, id: nat, dense: nat) returns (high: seq<Layers>)
    requires Untouched(alloc, dense, id)
    ensures high == UpperBound(alloc, id, dense) && Keeps(alloc, high)
  {
    hide SumTo, PartFrom;
    var nd := |alloc|;
    high := alloc;
    var jd := dense;
    while jd < nd
      invariant dense <= jd <= nd && |high| == nd && WellFormed(high) && Total(high) == Total(alloc)
      invariant high[id].Full() + PartFrom(alloc, jd)
                == alloc[id].Full() + PartFrom(alloc, dense) + (if jd == nd then Uncounted(alloc, id) else 0)
      invariant forall j :: 0 <= j < nd && j != id ==>
                  high[j] == if dense <= j < jd then alloc[j].(nLayer := if j < nd - 1 then 0 else 1, nPart := 0) else alloc[j]
      invariant high[id].nPart == (if dense <= id < jd then 0 else alloc[id].nPart) && high[id].overflow == alloc[id].overflow
      invariant jd == dense ==> high == alloc
    {
      var move := if jd < nd - 1 then high[jd].nLayer else high[jd].nLayer - 1;
      PartFromNext(alloc, jd);
      ghost var before := high;
      high := high[id := high[id].(nLayer := high[id].nLayer + move)];
      SumToUpdate(before, id, high[id], nd);
      ghost var given := high;
      high := high[jd := high[jd].(nLayer := high[jd].nLayer - move, nPart := 0)];
      SumToUpdate(given, jd, high[jd], nd);
      jd := jd + 1;
    }
    PartFromNext(alloc, nd);
  }

  /** If the last device has one full layer only, the upper bound is the test that converts everything. */
  lemma UpperBoundIsTest(alloc: seq<Layers>, id: nat, dense: nat)
    requires Untouched(alloc, dense, id) && Uncounted(alloc, id) == 0
    ensures UpperBound(alloc, id, dense) == Steps(alloc, id, dense, PartFrom(alloc, dense)).alloc
  {
    hide Steps, Keeps, PartFrom;
    StepsEffect(alloc, id, dense, PartFrom(alloc, dense));
    var high, t := UpperBound(alloc, id, dense), Steps(alloc, id, dense, PartFrom(alloc, dense));
    forall j | 0 <= j < |alloc|
      ensures high[j] == t.alloc[j]
    {
      assert t.alloc[j].nLayer == t.alloc[j].Full() + t.alloc[j].nPart;
    }
  }
}
