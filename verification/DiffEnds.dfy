/** Where a comparison cuts: whole segments are shared at both ends, and characters only between two pieces of text. */
module DiffEnds {
  import opened Markers
  import opened DiffSplit

  /** The first `i` and the last `m` segments are the same on both sides. */
  ghost predicate SharesEnds(l: seq<Segment>, r: seq<Segment>, i: nat, m: nat) {
    i + m <= |l| && i + m <= |r| && l[..i] == r[..i] && l[|l| - m..] == r[|r| - m..]
  }

  function Middle(segs: seq<Segment>, i: nat, m: nat): seq<Segment>
    requires i + m <= |segs|
  {
    segs[i..|segs| - m]
  }

  /** What is left between the shared ends begins and ends differently, unless it is the same text. */
  ghost predicate Apart(l: seq<Segment>, r: seq<Segment>, i: nat, m: nat)
    requires i + m <= |l| && i + m <= |r|
  {
    var a, b := Middle(l, i, m), Middle(r, i, m);
    a != [] && b != [] ==>
      || (a[0] != b[0] && a[|a| - 1] != b[|b| - 1])
      || (a == b && |a| == 1 && a[0].kind == Text)
  }

  /** Both sides go on, or end, with a piece of text. */
  predicate TextFirst(a: seq<Segment>, b: seq<Segment>) {
    a != [] && b != [] && a[0].kind == Text && b[0].kind == Text
  }

  predicate TextLast(a: seq<Segment>, b: seq<Segment>) {
    a != [] && b != [] && a[|a| - 1].kind == Text && b[|b| - 1].kind == Text
  }

  /**
    The parts of a comparison whose sides share `i` segments in front and `m` at the end, and the characters `p` and `q`
    next to them: characters are shared only where both sides have text, and there as many as there are.
   */
  ghost predicate CutAt(d: Split, l: seq<Segment>, r: seq<Segment>, i: nat, m: nat, p: string, q: string)
    requires i + m <= |l| && i + m <= |r|
  {
    var a, b := Middle(l, i, m), Middle(r, i, m);
    && d.prefix == Concat(l[..i]) + p && d.suffix == q + Concat(l[|l| - m..])
    && Concat(a) == p + d.left + q && Concat(b) == p + d.right + q
    && (p != "" ==> TextFirst(a, b)) && (q != "" ==> TextLast(a, b))
    && (d.left != "" && d.right != "" && TextFirst(a, b) ==> d.left[0] != d.right[0])
    && (d.left != "" && d.right != "" && TextLast(a, b) ==> d.left[|d.left| - 1] != d.right[|d.right| - 1])
  }

  // ----- whole segments

  /** The state of the comparison after `i` shared segments in front and `m` at the end. */
  ghost predicate At(l: seq<Segment>, r: seq<Segment>, e: Ends, i: nat, m: nat)
    requires Inside(l, r, e)
  {
    && SharesEnds(l, r, i, m)
    && e.prefix == Concat(l[..i]) && e.suffix == Concat(l[|l| - m..])
    && (if i + m == |l| then LeftRest(l, e) == "" else !e.leftDone && e.ls == i && e.le == |l| - m - 1)
    && (if i + m == |r| then RightRest(r, e) == "" else !e.rightDone && e.rs == i && e.re == |r| - m - 1)
  }

  /** The ends as the loop moves them: both sides have given the same number of segments. */
  ghost predicate Even(l: seq<Segment>, r: seq<Segment>, e: Ends, i: nat, m: nat) {
    && Inside(l, r, e) && SharesEnds(l, r, i, m) && e.ls == e.rs == i
    && |l| - m == (if e.leftDone then e.le else e.le + 1) && |r| - m == (if e.rightDone then e.re else e.re + 1)
    && e.prefix == Concat(l[..i]) && e.suffix == Concat(l[|l| - m..])
  }

  lemma ShareFront(l: seq<Segment>, r: seq<Segment>, i: nat, m: nat)
    requires SharesEnds(l, r, i, m) && i + m < |l| && i + m < |r| && l[i] == r[i]
    ensures SharesEnds(l, r, i + 1, m) && Concat(l[..i + 1]) == Concat(l[..i]) + l[i].value
  {
    hide Concat;
    assert l[..i + 1] == l[..i] + [l[i]] && r[..i + 1] == r[..i] + [r[i]];
    assert l[0..i + 1] == l[..i + 1] && l[0..i] == l[..i];
    ConcatEnds(l, 0, i + 1);
  }

  lemma ShareBack(l: seq<Segment>, r: seq<Segment>, i: nat, m: nat)
    requires SharesEnds(l, r, i, m) && i + m < |l| && i + m < |r| && l[|l| - m - 1] == r[|r| - m - 1]
    ensures SharesEnds(l, r, i, m + 1) && Concat(l[|l| - m - 1..]) == l[|l| - m - 1].value + Concat(l[|l| - m..])
  {
    hide Concat;
    assert l[|l| - m - 1..] == [l[|l| - m - 1]] + l[|l| - m..];
    assert r[|r| - m - 1..] == [r[|r| - m - 1]] + r[|r| - m..];
    assert l[|l| - m - 1..|l|] == l[|l| - m - 1..] && l[|l| - m..|l|] == l[|l| - m..];
    ConcatEnds(l, |l| - m - 1, |l|);
  }

  lemma FrontEven(l: seq<Segment>, r: seq<Segment>, e: Ends, i: nat, m: nat) returns (j: nat)
    requires Even(l, r, e, i, m) && Both(e) && !e.leftDone && !e.rightDone
    ensures Even(l, r, TakeFront(l, r, e), j, m)
  {
    hide Concat, SharesEnds;
    j := i;
    if l[e.ls] == r[e.rs] {
      ShareFront(l, r, i, m);
      j := i + 1;
    }
  }

  lemma BackEven(l: seq<Segment>, r: seq<Segment>, e: Ends, i: nat, m: nat) returns (n: nat)
    requires Even(l, r, e, i, m) && !e.leftDone && !e.rightDone
    ensures Even(l, r, TakeBack(l, r, e), i, n)
  {
    hide Concat, SharesEnds;
    n := m;
    if l[e.le] == r[e.re] {
      ShareBack(l, r, i, m);
      n := m + 1;
    }
  }

  lemma {:induction false} PeelEven(l: seq<Segment>, r: seq<Segment>, e: Ends, i: nat, m: nat) returns (j: nat, n: nat)
    requires Even(l, r, e, i, m) && (Both(e) ==> !e.leftDone && !e.rightDone)
    ensures Even(l, r, Peel(l, r, e), j, n)
    decreases e.le - e.ls + e.re - e.rs
  {
    j, n := i, m;
    PeelNext(l, r, e);
    if Both(e) {
      j := FrontEven(l, r, e, i, m);
      n := BackEven(l, r, TakeFront(l, r, e), j, m);
      var next := TakeBack(l, r, TakeFront(l, r, e));
      if next == e {
        j, n := i, m;
      } else {
        j, n := PeelEven(l, r, next, j, n);
      }
    }
  }

  lemma RestOf(l: seq<Segment>, e: Ends, i: nat, m: nat)
    requires e.ls <= e.le < |l| && e.ls == i && i + m <= |l| && |l| - m == if e.leftDone then e.le else e.le + 1
    ensures LeftRest(l, e) == Concat(Middle(l, i, m)) && (i + m == |l| ==> LeftRest(l, e) == "")
  {
  }

  lemma RestOfRight(r: seq<Segment>, e: Ends, i: nat, m: nat)
    requires e.rs <= e.re < |r| && e.rs == i && i + m <= |r| && |r| - m == if e.rightDone then e.re else e.re + 1
    ensures RightRest(r, e) == Concat(Middle(r, i, m)) && (i + m == |r| ==> RightRest(r, e) == "")
  {
  }

  lemma EvenAt(l: seq<Segment>, r: seq<Segment>, e: Ends, i: nat, m: nat)
    requires Even(l, r, e, i, m) && (e.leftDone ==> e.ls == e.le) && (e.rightDone ==> e.rs == e.re)
    ensures At(l, r, e, i, m)
  {
    hide Concat;
    RestOf(l, e, i, m);
    RestOfRight(r, e, i, m);
  }

  // ----- where the sides meet

  lemma LeftMeetsAt(l: seq<Segment>, r: seq<Segment>, e: Ends, i: nat, m: nat) returns (j: nat, n: nat)
    requires Even(l, r, e, i, m) && LeftMeets(l, r, e) && !e.leftDone
    ensures At(l, r, Meet(l, r, e), j, n) && j + n == |l|
  {
    hide Concat, SharesEnds;
    ConcatAt(l, e.ls);
    if l[e.ls] == r[e.re] {
      ShareBack(l, r, i, m);
      j, n := i, m + 1;
    } else {
      ShareFront(l, r, i, m);
      j, n := i + 1, m;
    }
  }

  lemma RightMeetsAt(l: seq<Segment>, r: seq<Segment>, e: Ends, i: nat, m: nat) returns (j: nat, n: nat)
    requires Even(l, r, e, i, m) && RightMeets(l, r, e) && !e.rightDone
    ensures At(l, r, Meet(l, r, e), j, n) && j + n == |r|
  {
    hide Concat, SharesEnds;
    ConcatAt(r, e.rs);
    if l[e.le] == r[e.rs] {
      ShareBack(l, r, i, m);
      j, n := i, m + 1;
    } else {
      ShareFront(l, r, i, m);
      j, n := i + 1, m;
    }
  }

  lemma MarkersMeetAt(l: seq<Segment>, r: seq<Segment>, e: Ends, i: nat, m: nat)
    requires Even(l, r, e, i, m) && MarkersMeet(l, r, e) && !e.leftDone && !e.rightDone
    ensures At(l, r, Meet(l, r, e), i + 1, m) && i + 1 + m == |l| == |r|
  {
    hide Concat, SharesEnds;
    ConcatAt(l, e.ls);
    ConcatAt(r, e.rs);
    ShareFront(l, r, i, m);
  }

  /** A segment of one side is matched although the loop has taken it already. */
  predicate MatchedTwice(left: string, right: string) {
    var l, r := Segments(left), Segments(right);
    l != [] && r != [] &&
    var e := Peeled(left, right);
    LeftTwice(l, r, e) || RightTwice(l, r, e) || OneTwice(l, r, e)
  }

  /** Where the loop stops. */
  predicate Stuck(l: seq<Segment>, r: seq<Segment>, e: Ends)
    requires Inside(l, r, e)
  {
    Both(e) ==> !e.leftDone && !e.rightDone && l[e.ls] != r[e.rs] && l[e.le] != r[e.re]
  }

  /** After the loop, and after the sides have met. */
  lemma MeetAt(l: seq<Segment>, r: seq<Segment>, e: Ends, i: nat, m: nat) returns (j: nat, n: nat)
    requires Even(l, r, e, i, m) && Stuck(l, r, e)
    requires !LeftTwice(l, r, e) && !RightTwice(l, r, e) && !OneTwice(l, r, e) && !(e.leftDone && e.rightDone)
    ensures At(l, r, Meet(l, r, e), j, n) && Apart(l, r, j, n)
  {
    hide Concat, SharesEnds;
    if LeftMeets(l, r, e) {
      j, n := LeftMeetsAt(l, r, e, i, m);
    } else if RightMeets(l, r, e) {
      j, n := RightMeetsAt(l, r, e, i, m);
    } else if MarkersMeet(l, r, e) {
      j, n := i + 1, m;
      MarkersMeetAt(l, r, e, i, m);
    } else {
      j, n := i, m;
      EvenAt(l, r, e, i, m);
      PeeledApart(l, r, e, i, m);
    }
  }

  lemma PeeledApart(l: seq<Segment>, r: seq<Segment>, e: Ends, i: nat, m: nat)
    requires Even(l, r, e, i, m) && Stuck(l, r, e)
    requires !LeftMeets(l, r, e) && !RightMeets(l, r, e) && !MarkersMeet(l, r, e)
    ensures Apart(l, r, i, m)
  {
    hide Concat;
  }

  // ----- characters

  /** What is cut off at the ends. */
  lemma CutParts(prefix: string, a: string, b: string, suffix: string, atStart: bool, atEnd: bool) returns (p: string, q: string)
    ensures var d := CutShared(prefix, a, b, suffix, atStart, atEnd);
            && d.prefix == prefix + p && d.suffix == q + suffix && a == p + d.left + q && b == p + d.right + q
            && (p != "" ==> atStart) && (q != "" ==> atEnd)
  {
    hide CommonPrefix, CommonSuffix, SameStart, SameEnd;
    SameNothing(a, b);
    var suf := if atEnd then CommonSuffix(a, b, 0) else 0;
    SameNothing(a[..|a| - suf], b[..|b| - suf]);
    var pre := if atStart then CommonPrefix(a[..|a| - suf], b[..|b| - suf], 0) else 0;
    p, q := a[..pre], a[|a| - suf..];
    CutBoth("", a, b, "", pre, suf);
    NothingAround(p);
    NothingAround(q);
    NothingAround(a);
    NothingAround(b);
  }

  /** Nothing more could be cut off. */
  lemma CutAll(prefix: string, a: string, b: string, suffix: string, atStart: bool, atEnd: bool)
    ensures var d := CutShared(prefix, a, b, suffix, atStart, atEnd);
            && (d.left != "" && d.right != "" && atStart ==> d.left[0] != d.right[0])
            && (d.left != "" && d.right != "" && atEnd ==> d.left[|d.left| - 1] != d.right[|d.right| - 1])
  {
    hide CommonPrefix, CommonSuffix;
  }

  lemma AtRests(l: seq<Segment>, r: seq<Segment>, e: Ends, i: nat, m: nat)
    requires Inside(l, r, e) && At(l, r, e, i, m)
    ensures LeftRest(l, e) == Concat(Middle(l, i, m)) && RightRest(r, e) == Concat(Middle(r, i, m))
    ensures i + m < |l| && i + m < |r| ==>
      && (TextFirst(Middle(l, i, m), Middle(r, i, m)) <==> r[e.rs].kind == Text && l[e.ls].kind == Text)
      && (TextLast(Middle(l, i, m), Middle(r, i, m)) <==> l[e.le].kind == Text && r[e.re].kind == Text)
  {
    if i + m < |l| {
      RestOf(l, e, i, m);
    }
    if i + m < |r| {
      RestOfRight(r, e, i, m);
    }
  }

  lemma TrimCuts(l: seq<Segment>, r: seq<Segment>, e: Ends, i: nat, m: nat) returns (p: string, q: string)
    requires Inside(l, r, e) && At(l, r, e, i, m)
    ensures CutAt(Trim(l, r, e), l, r, i, m, p, q)
  {
    hide CutShared, Concat, SharesEnds, LeftRest, RightRest;
    AtRests(l, r, e, i, m);
    var a, b := LeftRest(l, e), RightRest(r, e);
    var atStart, atEnd := r[e.rs].kind == Text && l[e.ls].kind == Text, l[e.le].kind == Text && r[e.re].kind == Text;
    p, q := CutParts(e.prefix, a, b, e.suffix, atStart, atEnd);
    CutAll(e.prefix, a, b, e.suffix, atStart, atEnd);
    if i + m == |l| {
      CutNothing(e.prefix, b, e.suffix, atStart, atEnd);
      p, q := "", "";
    } else if i + m == |r| {
      CutNothing(e.prefix, a, e.suffix, atStart, atEnd);
      p, q := "", "";
    }
    NothingAround(a);
    NothingAround(b);
    NothingAround(e.prefix);
    NothingAround(e.suffix);
  }

  lemma NothingAround(a: string)
    ensures "" + a + "" == a && a + "" == a && "" + a == a
  {
  }

  // ----- the whole comparison

  /**
    Unless a segment is matched twice, whole segments are shared at both ends, as many as there are, and characters next to
    them only between two pieces of text; if nothing is left of the left side, it is reported as a beginning of the right.
   */
  lemma SplitCuts(left: string, right: string) returns (i: nat, m: nat, d: Split, p: string, q: string)
    requires Segments(left) != [] && Segments(right) != [] && !MatchedTwice(left, right)
    ensures var l, r := Segments(left), Segments(right);
            && i + m <= |l| && i + m <= |r| && SharesEnds(l, r, i, m) && Apart(l, r, i, m)
            && CutAt(d, l, r, i, m, p, q)
            && SplitOf(left, right)
               == if d.left == "" && left <= right then Split(left, "", "", right[|left|..]) else d
  {
    hide Concat, Segments, Peel, Meet, Trim, SharesEnds, Apart, CutAt;
    var l, r := Segments(left), Segments(right);
    SegmentsFit(left);
    SegmentsFit(right);
    var e0, e := Start(l, r), Peeled(left, right);
    StartEven(l, r);
    i, m := PeelEven(l, r, e0, 0, 0);
    StartAccounts(l, r);
    PeelAccounts(l, r, e0);
    if e.leftDone && e.rightDone {
      BothDone(l, r, e);
      d, p, q := Split(Concat(l[..i]), Concat(l[|l| - m..]), "", ""), "", "";
      NothingLeft(l, r, e, i, m);
    } else {
      OtherwiseRebuilds(l, r, e);
      i, m := MeetAt(l, r, e, i, m);
      d := Trim(l, r, Meet(l, r, e));
      p, q := TrimCuts(l, r, Meet(l, r, e), i, m);
    }
  }

  lemma StartEven(l: seq<Segment>, r: seq<Segment>)
    requires l != [] && r != []
    ensures Even(l, r, Start(l, r), 0, 0)
  {
    assert l[..0] == [] && l[|l|..] == [] && r[..0] == [] && r[|r|..] == [];
  }

  lemma NothingLeft(l: seq<Segment>, r: seq<Segment>, e: Ends, i: nat, m: nat)
    requires Even(l, r, e, i, m) && e.leftDone && e.rightDone
    ensures i + m == |l| == |r| && Apart(l, r, i, m)
    ensures CutAt(Split(Concat(l[..i]), Concat(l[|l| - m..]), "", ""), l, r, i, m, "", "")
  {
    assert Middle(l, i, m) == [] && Middle(r, i, m) == [];
    NothingAround(Concat(l[..i]));
    NothingAround(Concat(l[|l| - m..]));
  }

  lemma NothingShared(a: Segment, b: Segment, i: nat, m: nat)
    requires a != b && SharesEnds([a], [b], i, m)
    ensures i == 0 && m == 0
  {
    assert [a][..1][0] == a && [b][..1][0] == b && [a][0..][0] == a && [b][0..][0] == b;
  }

  lemma NothingCut(d: Split, a: Segment, b: Segment, p: string, q: string)
    requires a.kind == Marker && CutAt(d, [a], [b], 0, 0, p, q)
    ensures d == Split("", "", a.value, b.value)
  {
    assert [a][..0] == [] && [a][1..] == [] && Middle([a], 0, 0) == [a] && Middle([b], 0, 0) == [b];
    hide Concat;
    ConcatNothing();
    ConcatOne(a);
    ConcatOne(b);
    NothingAround(d.left);
    NothingAround(d.right);
  }

  lemma NotTwice(a: Segment, b: Segment)
    requires a != b && Segments(a.value) == [a] && Segments(b.value) == [b]
    ensures !MatchedTwice(a.value, b.value)
  {
    hide Segments;
    assert Peeled(a.value, b.value) == Start([a], [b]);
  }

  /** Two different markers have nothing in common. */
  lemma MarkersDiffer(a: Segment, b: Segment)
    requires a.kind == Marker && IsMarker(a.value) && b.kind == Marker && IsMarker(b.value) && a != b
    ensures SplitOf(a.value, b.value) == Split("", "", a.value, b.value)
  {
    hide Concat, Segments, IsMarker, SplitOf, CutAt, SharesEnds, MatchedTwice, Solid, Segmented, Apart;
    ConcatOne(a);
    ConcatOne(b);
    Alone(a);
    Alone(b);
    NotTwice(a, b);
    var i, m, d, p, q := SplitCuts(a.value, b.value);
    NothingShared(a, b, i, m);
    NothingCut(d, a, b, p, q);
  }

  lemma Alone(a: Segment)
    requires a.kind == Marker && IsMarker(a.value)
    ensures Segments(a.value) == [a] && a.value != ""
  {
    hide Segments, Concat;
    ConcatOne(a);
    SegmentationUnique([a]);
  }
}
