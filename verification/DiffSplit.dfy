/** Comparing two template outputs: what they share at both ends and what is left of each between. */
module DiffSplit {
  import opened Markers

  datatype Split = Split(prefix: string, suffix: string, left: string, right: string)

  /** The parts put together again are the inputs. */
  predicate Rebuilds(d: Split, left: string, right: string) {
    d.prefix + d.left + d.suffix == left && d.prefix + d.right + d.suffix == right
  }

  // ----- shared characters

  predicate SameStart(a: string, b: string, n: nat) {
    n <= |a| && n <= |b| && a[..n] == b[..n]
  }

  predicate SameEnd(a: string, b: string, n: nat) {
    n <= |a| && n <= |b| && a[|a| - n..] == b[|b| - n..]
  }

  lemma StartNext(a: string, b: string, n: nat)
    requires SameStart(a, b, n) && n < |a| && n < |b| && a[n] == b[n]
    ensures SameStart(a, b, n + 1)
  {
  }

  lemma EndNext(a: string, b: string, n: nat)
    requires SameEnd(a, b, n) && n < |a| && n < |b| && a[|a| - 1 - n] == b[|b| - 1 - n]
    ensures SameEnd(a, b, n + 1)
  {
  }

  /** The length of the longest common prefix, given that the first `i` characters agree. */
  function CommonPrefix(a: string, b: string, i: nat): (n: nat)
    requires SameStart(a, b, i)
    ensures i <= n <= |a| && n <= |b| && SameStart(a, b, n)
    ensures n == |a| || n == |b| || a[n] != b[n]
    decreases |a| - i
  {
    if i < |a| && i < |b| && a[i] == b[i] then
      StartNext(a, b, i);
      CommonPrefix(a, b, i + 1)
    else i
  }

  /** The length of the longest common suffix, given that the last `i` characters agree. */
  function CommonSuffix(a: string, b: string, i: nat): (n: nat)
    requires SameEnd(a, b, i)
    ensures i <= n <= |a| && n <= |b| && SameEnd(a, b, n)
    ensures n == |a| || n == |b| || a[|a| - 1 - n] != b[|b| - 1 - n]
    decreases |a| - i
  {
    if i < |a| && i < |b| && a[|a| - 1 - i] == b[|b| - 1 - i] then
      EndNext(a, b, i);
      CommonSuffix(a, b, i + 1)
    else i
  }

  lemma SameNothing(a: string, b: string)
    ensures SameStart(a, b, 0) && SameEnd(a, b, 0)
  {
  }

  method CommonPrefixLen(a: string, b: string) returns (n: nat)
    ensures SameStart(a, b, 0) && n == CommonPrefix(a, b, 0)
  {
    hide SameStart;
    SameNothing(a, b);
    n := 0;
    var most := if |a| < |b| then |a| else |b|;
    while n < most && a[n] == b[n]
      invariant n <= most && SameStart(a, b, n) && CommonPrefix(a, b, 0) == CommonPrefix(a, b, n)
    {
      StartNext(a, b, n);
      n := n + 1;
    }
  }

  method CommonSuffixLen(a: string, b: string) returns (n: nat)
    ensures SameEnd(a, b, 0) && n == CommonSuffix(a, b, 0)
  {
    hide SameEnd;
    SameNothing(a, b);
    n := 0;
    var most := if |a| < |b| then |a| else |b|;
    while n < most && a[|a| - 1 - n] == b[|b| - 1 - n]
      invariant n <= most && SameEnd(a, b, n) && CommonSuffix(a, b, 0) == CommonSuffix(a, b, n)
    {
      EndNext(a, b, n);
      n := n + 1;
    }
  }

  // ----- shared segments

  /**
   * What is still to be compared: segments `ls` to `le` of the left side and `rs` to `re` of the right side, both
   * bounds included, but nothing of a side that is done.
   */
  datatype Ends = Ends(ls: nat, le: nat, rs: nat, re: nat, prefix: string, suffix: string, leftDone: bool, rightDone: bool)

  predicate Inside(l: seq<Segment>, r: seq<Segment>, e: Ends) {
    && e.ls <= e.le < |l| && e.rs <= e.re < |r|
    && (e.leftDone ==> e.ls == e.le) && (e.rightDone ==> e.rs == e.re)
  }

  function LeftRest(l: seq<Segment>, e: Ends): string
    requires e.ls <= e.le < |l|
  {
    Concat(l[e.ls..if e.leftDone then e.le else e.le + 1])
  }

  function RightRest(r: seq<Segment>, e: Ends): string
    requires e.rs <= e.re < |r|
  {
    Concat(r[e.rs..if e.rightDone then e.re else e.re + 1])
  }

  /** Nothing is lost and nothing is counted twice. */
  predicate Accounts(l: seq<Segment>, r: seq<Segment>, e: Ends)
    requires Inside(l, r, e)
  {
    && e.prefix + LeftRest(l, e) + e.suffix == Concat(l)
    && e.prefix + RightRest(r, e) + e.suffix == Concat(r)
  }

  function Start(l: seq<Segment>, r: seq<Segment>): Ends
    requires l != [] && r != []
  {
    Ends(0, |l| - 1, 0, |r| - 1, "", "", false, false)
  }

  predicate Both(e: Ends) {
    e.ls < e.le && e.rs < e.re
  }

  function TakeFront(l: seq<Segment>, r: seq<Segment>, e: Ends): (n: Ends)
    requires Inside(l, r, e) && Both(e)
    ensures Inside(l, r, n)
  {
    if l[e.ls] == r[e.rs] then e.(prefix := e.prefix + l[e.ls].value, ls := e.ls + 1, rs := e.rs + 1) else e
  }

  function TakeBack(l: seq<Segment>, r: seq<Segment>, e: Ends): (n: Ends)
    requires Inside(l, r, e) && !e.leftDone && !e.rightDone
    ensures Inside(l, r, n)
  {
    if l[e.le] == r[e.re] then
      e.(suffix := l[e.le].value + e.suffix,
         le := if e.ls != e.le then e.le - 1 else e.le, leftDone := e.ls == e.le,
         re := if e.rs != e.re then e.re - 1 else e.re, rightDone := e.rs == e.re)
    else e
  }

  /** Segments are taken from both ends while both sides have at least two left. */
  function Peel(l: seq<Segment>, r: seq<Segment>, e: Ends): (n: Ends)
    requires Inside(l, r, e) && (Both(e) ==> !e.leftDone && !e.rightDone)
    ensures Inside(l, r, n)
    ensures Both(n) ==> !n.leftDone && !n.rightDone && l[n.ls] != r[n.rs] && l[n.le] != r[n.re]
    decreases e.le - e.ls + e.re - e.rs
  {
    if !Both(e) then e
    else
      var n := TakeBack(l, r, TakeFront(l, r, e));
      if n == e then e else Peel(l, r, n)
  }

  /** One side is down to its last segment, which may match an end of the other. */
  predicate LeftMeets(l: seq<Segment>, r: seq<Segment>, e: Ends)
    requires Inside(l, r, e)
  {
    e.ls == e.le && e.rs != e.re && (l[e.ls] == r[e.re] || l[e.ls] == r[e.rs])
  }

  predicate RightMeets(l: seq<Segment>, r: seq<Segment>, e: Ends)
    requires Inside(l, r, e)
  {
    e.rs == e.re && e.ls != e.le && (l[e.le] == r[e.rs] || l[e.ls] == r[e.rs])
  }

  predicate MarkersMeet(l: seq<Segment>, r: seq<Segment>, e: Ends)
    requires Inside(l, r, e)
  {
    e.ls == e.le && e.rs == e.re && l[e.ls] == r[e.rs] && l[e.ls].kind == Marker
  }

  function Meet(l: seq<Segment>, r: seq<Segment>, e: Ends): (n: Ends)
    requires Inside(l, r, e)
    ensures Inside(l, r, n)
  {
    if LeftMeets(l, r, e) then
      if l[e.ls] == r[e.re] then e.(suffix := r[e.re].value + e.suffix, re := e.re - 1, leftDone := true)
      else e.(prefix := e.prefix + r[e.rs].value, rs := e.rs + 1, leftDone := true)
    else if RightMeets(l, r, e) then
      if l[e.le] == r[e.rs] then e.(suffix := l[e.le].value + e.suffix, le := e.le - 1, rightDone := true)
      else e.(prefix := e.prefix + l[e.ls].value, ls := e.ls + 1, rightDone := true)
    else if MarkersMeet(l, r, e) then
      e.(prefix := e.prefix + r[e.rs].value, leftDone := true, rightDone := true)
    else e
  }

  // ----- the result

  /** Shared characters are taken off the end, and then off the beginning. */
  function CutShared(prefix: string, a: string, b: string, suffix: string, atStart: bool, atEnd: bool): Split {
    var suf := if atEnd then CommonSuffix(a, b, 0) else 0;
    var pre := if atStart then CommonPrefix(a[..|a| - suf], b[..|b| - suf], 0) else 0;
    Split(prefix + a[..pre], a[|a| - suf..] + suffix, a[pre..|a| - suf], b[pre..|b| - suf])
  }

  /** Between two pieces of text the shared characters are taken off as well. */
  function Trim(l: seq<Segment>, r: seq<Segment>, e: Ends): Split
    requires Inside(l, r, e)
  {
    CutShared(e.prefix, LeftRest(l, e), RightRest(r, e), e.suffix,
              r[e.rs].kind == Text && l[e.ls].kind == Text, l[e.le].kind == Text && r[e.re].kind == Text)
  }

  function Settle(d: Split, left: string, right: string): Split {
    if d.left == "" && d.right == "" then d.(prefix := left, suffix := "")
    else if d.left == "" && left <= right then d.(prefix := left, suffix := "", right := right[|left|..])
    else d
  }

  function SplitOf(left: string, right: string): Split {
    var l, r := Segments(left), Segments(right);
    if l == [] then Split("", "", "", right)
    else if r == [] then Split("", "", left, "")
    else Settle(Trim(l, r, Meet(l, r, Peel(l, r, Start(l, r)))), left, right)
  }

  /** The loop that moves the four ends towards each other. */
  method PeelEnds(l: seq<Segment>, r: seq<Segment>) returns (e: Ends)
    requires l != [] && r != []
    ensures e == Peel(l, r, Start(l, r))
  {
    hide Peel;
    var ls: nat, le: nat, rs: nat, re: nat := 0, |l| - 1, 0, |r| - 1;
    var prefix, suffix, leftDone, rightDone := "", "", false, false;
    while ls != le && rs != re
      invariant var now := Ends(ls, le, rs, re, prefix, suffix, leftDone, rightDone);
                Inside(l, r, now) && (Both(now) ==> !leftDone && !rightDone)
                && Peel(l, r, Start(l, r)) == Peel(l, r, now)
      decreases le - ls + re - rs
    {
      ghost var before := Ends(ls, le, rs, re, prefix, suffix, leftDone, rightDone);
      PeelNext(l, r, before);
      var advanced := false;
      if l[ls] == r[rs] {
        prefix := prefix + l[ls].value;
        ls, rs, advanced := ls + 1, rs + 1, true;
      }
      if l[le] == r[re] {
        suffix := l[le].value + suffix;
        if ls != le {
          le := le - 1;
        } else {
          leftDone := true;
        }
        if rs != re {
          re := re - 1;
        } else {
          rightDone := true;
        }
        advanced := true;
      }
      assert Ends(ls, le, rs, re, prefix, suffix, leftDone, rightDone) == TakeBack(l, r, TakeFront(l, r, before));
      if !advanced {
        break;
      }
    }
    e := Ends(ls, le, rs, re, prefix, suffix, leftDone, rightDone);
    if !Both(e) {
      PeelNext(l, r, e);
    }
  }

  lemma PeelNext(l: seq<Segment>, r: seq<Segment>, e: Ends)
    requires Inside(l, r, e) && (Both(e) ==> !e.leftDone && !e.rightDone)
    ensures !Both(e) ==> Peel(l, r, e) == e
    ensures Both(e) ==> var n := TakeBack(l, r, TakeFront(l, r, e));
                        if n == e then Peel(l, r, e) == e
                        else (Both(n) ==> !n.leftDone && !n.rightDone) && Peel(l, r, e) == Peel(l, r, n)
  {
  }

  method CutSharedEnds(prefix: string, a: string, b: string, suffix: string, atStart: bool, atEnd: bool)
    returns (d: Split)
    ensures d == CutShared(prefix, a, b, suffix, atStart, atEnd)
  {
    hide CommonPrefix, CommonSuffix, SameStart, SameEnd;
    var suf, pre := 0, 0;
    SameNothing(a, b);
    if atEnd {
      suf := CommonSuffixLen(a, b);
    }
    SameNothing(a[..|a| - suf], b[..|b| - suf]);
    if atStart {
      pre := CommonPrefixLen(a[..|a| - suf], b[..|b| - suf]);
    }
    d := Split(prefix + a[..pre], a[|a| - suf..] + suffix, a[pre..|a| - suf], b[pre..|b| - suf]);
  }

  method CalculateDiffSplit(left: string, right: string) returns (d: Split)
    ensures d == SplitOf(left, right)
  {
    hide Segments, Concat, Segmented, Peel, Meet, CutShared;
    var l := SegmentizeMarkers(left);
    var r := SegmentizeMarkers(right);
    SegmentationUnique(l);
    SegmentationUnique(r);
    if |l| == 0 {
      return Split("", "", "", right);
    }
    if |r| == 0 {
      return Split("", "", left, "");
    }
    var e := PeelEnds(l, r);
    e := Meet(l, r, e);
    d := CutSharedEnds(e.prefix, LeftRest(l, e), RightRest(r, e), e.suffix,
                       r[e.rs].kind == Text && l[e.ls].kind == Text, l[e.le].kind == Text && r[e.re].kind == Text);
    if d.left == "" && d.right == "" {
      d := d.(prefix := left, suffix := "");
    }
    if d.left == "" && d.right != "" && left <= right {
      d := d.(prefix := left, suffix := "", right := right[|left|..]);
    }
  }

  // ----- nothing is lost, unless a segment is taken twice

  lemma ConcatSplit(segs: seq<Segment>, i: nat, j: nat, k: nat)
    requires i <= j <= k <= |segs|
    ensures Concat(segs[i..k]) == Concat(segs[i..j]) + Concat(segs[j..k])
  {
    assert segs[i..k] == segs[i..j] + segs[j..k];
    ConcatAppend(segs[i..j], segs[j..k]);
  }

  lemma ConcatAt(segs: seq<Segment>, i: nat)
    requires i < |segs|
    ensures Concat(segs[i..i]) == "" && Concat(segs[i..i + 1]) == segs[i].value
  {
  }

  /** What is left of a side loses its first segment to the prefix or its last one to the suffix. */
  lemma ConcatEnds(segs: seq<Segment>, i: nat, k: nat)
    requires i < k <= |segs|
    ensures Concat(segs[i..k]) == segs[i].value + Concat(segs[i + 1..k])
    ensures Concat(segs[i..k]) == Concat(segs[i..k - 1]) + segs[k - 1].value
  {
    hide Concat;
    ConcatSplit(segs, i, i + 1, k);
    ConcatSplit(segs, i, k - 1, k);
    ConcatAt(segs, i);
    ConcatAt(segs, k - 1);
  }

  lemma Regroup(p: string, v: string, m: string, s: string)
    ensures (p + v) + m + s == p + (v + m) + s
    ensures p + m + (v + s) == p + (m + v) + s
  {
  }

  lemma FrontAccounts(l: seq<Segment>, r: seq<Segment>, e: Ends)
    requires Inside(l, r, e) && Both(e) && !e.leftDone && !e.rightDone && Accounts(l, r, e)
    ensures Accounts(l, r, TakeFront(l, r, e))
  {
  }

  lemma BackAccounts(l: seq<Segment>, r: seq<Segment>, e: Ends)
    requires Inside(l, r, e) && !e.leftDone && !e.rightDone && Accounts(l, r, e)
    ensures Accounts(l, r, TakeBack(l, r, e))
  {
    hide Concat;
    if l[e.le] == r[e.re] {
      ConcatEnds(l, e.ls, e.le + 1);
      ConcatEnds(r, e.rs, e.re + 1);
      Regroup(e.prefix, l[e.le].value, Concat(l[e.ls..e.le]), e.suffix);
      Regroup(e.prefix, r[e.re].value, Concat(r[e.rs..e.re]), e.suffix);
    }
  }

  lemma {:induction false} PeelAccounts(l: seq<Segment>, r: seq<Segment>, e: Ends)
    requires Inside(l, r, e) && (Both(e) ==> !e.leftDone && !e.rightDone) && Accounts(l, r, e)
    ensures Accounts(l, r, Peel(l, r, e))
    decreases e.le - e.ls + e.re - e.rs
  {
    hide Accounts;
    if Both(e) {
      FrontAccounts(l, r, e);
      var n := TakeBack(l, r, TakeFront(l, r, e));
      BackAccounts(l, r, TakeFront(l, r, e));
      if n != e {
        PeelAccounts(l, r, n);
      }
    }
  }

  /** The end of a side is taken twice: once while it was peeled and once when the sides met. */
  predicate LeftTwice(l: seq<Segment>, r: seq<Segment>, e: Ends)
    requires Inside(l, r, e)
  {
    e.leftDone && LeftMeets(l, r, e)
  }

  predicate RightTwice(l: seq<Segment>, r: seq<Segment>, e: Ends)
    requires Inside(l, r, e)
  {
    e.rightDone && RightMeets(l, r, e)
  }

  predicate OneTwice(l: seq<Segment>, r: seq<Segment>, e: Ends)
    requires Inside(l, r, e)
  {
    e.leftDone != e.rightDone && MarkersMeet(l, r, e)
  }

  lemma LeftMeetAccounts(l: seq<Segment>, r: seq<Segment>, e: Ends)
    requires Inside(l, r, e) && Accounts(l, r, e) && LeftMeets(l, r, e) && !e.leftDone
    ensures Accounts(l, r, Meet(l, r, e))
  {
    hide Concat;
    ConcatAt(l, e.ls);
    ConcatEnds(r, e.rs, e.re + 1);
    if l[e.ls] == r[e.re] {
      Regroup(e.prefix, r[e.re].value, Concat(r[e.rs..e.re]), e.suffix);
      Regroup(e.prefix, l[e.ls].value, "", e.suffix);
    } else {
      Regroup(e.prefix, r[e.rs].value, Concat(r[e.rs + 1..e.re + 1]), e.suffix);
      Regroup(e.prefix, l[e.ls].value, "", e.suffix);
    }
  }

  lemma RightMeetAccounts(l: seq<Segment>, r: seq<Segment>, e: Ends)
    requires Inside(l, r, e) && Accounts(l, r, e) && RightMeets(l, r, e) && !e.rightDone
    ensures Accounts(l, r, Meet(l, r, e))
  {
    hide Concat;
    ConcatAt(r, e.rs);
    ConcatEnds(l, e.ls, e.le + 1);
    if l[e.le] == r[e.rs] {
      Regroup(e.prefix, l[e.le].value, Concat(l[e.ls..e.le]), e.suffix);
      Regroup(e.prefix, r[e.rs].value, "", e.suffix);
    } else {
      Regroup(e.prefix, l[e.ls].value, Concat(l[e.ls + 1..e.le + 1]), e.suffix);
      Regroup(e.prefix, r[e.rs].value, "", e.suffix);
    }
  }

  lemma MeetAccounts(l: seq<Segment>, r: seq<Segment>, e: Ends)
    requires Inside(l, r, e) && Accounts(l, r, e)
    requires !LeftTwice(l, r, e) && !RightTwice(l, r, e) && !OneTwice(l, r, e) && !(e.leftDone && e.rightDone)
    ensures Accounts(l, r, Meet(l, r, e))
  {
    hide Concat;
    if LeftMeets(l, r, e) {
      LeftMeetAccounts(l, r, e);
    } else if RightMeets(l, r, e) {
      RightMeetAccounts(l, r, e);
    } else if MarkersMeet(l, r, e) {
      ConcatAt(l, e.ls);
      ConcatAt(r, e.rs);
      Regroup(e.prefix, l[e.ls].value, "", e.suffix);
    }
  }

  lemma CutBoth(p: string, a: string, b: string, s: string, pre: nat, suf: nat)
    requires SameEnd(a, b, suf) && SameStart(a[..|a| - suf], b[..|b| - suf], pre)
    ensures (p + a[..pre]) + a[pre..|a| - suf] + (a[|a| - suf..] + s) == p + a + s
    ensures (p + a[..pre]) + b[pre..|b| - suf] + (a[|a| - suf..] + s) == p + b + s
  {
    CutPieces(p, a, s, pre, suf);
    CutPieces(p, b, s, pre, suf);
    SamePieces(a, b, pre, suf);
  }

  lemma CutPieces(p: string, a: string, s: string, pre: nat, suf: nat)
    requires pre + suf <= |a|
    ensures (p + a[..pre]) + a[pre..|a| - suf] + (a[|a| - suf..] + s) == p + a + s
  {
    assert a == a[..pre] + a[pre..|a| - suf] + a[|a| - suf..];
  }

  lemma SamePieces(a: string, b: string, pre: nat, suf: nat)
    requires SameEnd(a, b, suf) && SameStart(a[..|a| - suf], b[..|b| - suf], pre)
    ensures pre + suf <= |a| && pre + suf <= |b| && a[..pre] == b[..pre] && a[|a| - suf..] == b[|b| - suf..]
  {
    assert a[..pre] == a[..|a| - suf][..pre] == b[..|b| - suf][..pre] == b[..pre];
  }

  /** Taking off shared characters loses nothing. */
  lemma CutRebuilds(p: string, a: string, b: string, s: string, atStart: bool, atEnd: bool)
    ensures Rebuilds(CutShared(p, a, b, s, atStart, atEnd), p + a + s, p + b + s)
  {
    hide CommonPrefix, CommonSuffix, SameStart, SameEnd;
    SameNothing(a, b);
    var suf := if atEnd then CommonSuffix(a, b, 0) else 0;
    SameNothing(a[..|a| - suf], b[..|b| - suf]);
    var pre := if atStart then CommonPrefix(a[..|a| - suf], b[..|b| - suf], 0) else 0;
    CutBoth(p, a, b, s, pre, suf);
  }

  lemma CutNothing(p: string, b: string, s: string, atStart: bool, atEnd: bool)
    ensures CutShared(p, "", b, s, atStart, atEnd) == Split(p, s, "", b)
    ensures CutShared(p, b, "", s, atStart, atEnd) == Split(p, s, b, "")
  {
    assert b[..|b|] == b && p + "" == p && "" + s == s;
  }

  // ----- and lost it is when it is taken twice

  predicate Solid(segs: seq<Segment>) {
    forall i :: 0 <= i < |segs| ==> segs[i].value != ""
  }

  lemma SegmentsSolid(segs: seq<Segment>)
    requires Segmented(segs)
    ensures Solid(segs)
  {
  }

  /** The left side is reported with its last segment twice, unless the right side goes on from it. */
  lemma LeftTwiceLoses(l: seq<Segment>, r: seq<Segment>, e: Ends)
    requires Inside(l, r, e) && Accounts(l, r, e) && LeftTwice(l, r, e) && Solid(l) && Solid(r)
    ensures var d := Settle(Trim(l, r, Meet(l, r, e)), Concat(l), Concat(r));
            d.right != "" && (Rebuilds(d, Concat(l), Concat(r)) <==> Concat(l) <= Concat(r))
    ensures Concat(l) != Concat(r)
  {
  }

  /** The right side is reported with its last segment twice. */
  lemma RightTwiceLoses(l: seq<Segment>, r: seq<Segment>, e: Ends)
    requires Inside(l, r, e) && Accounts(l, r, e) && RightTwice(l, r, e) && Solid(l) && Solid(r)
    ensures var d := Settle(Trim(l, r, Meet(l, r, e)), Concat(l), Concat(r));
            d.left != "" && !Rebuilds(d, Concat(l), Concat(r))
    ensures Concat(l) != Concat(r)
  {
  }

  /** A difference of one segment is reported as none. */
  lemma OneTwiceLoses(l: seq<Segment>, r: seq<Segment>, e: Ends)
    requires Inside(l, r, e) && Accounts(l, r, e) && OneTwice(l, r, e) && Solid(l) && Solid(r)
    ensures Settle(Trim(l, r, Meet(l, r, e)), Concat(l), Concat(r)) == Split(Concat(l), "", "", "")
    ensures Concat(l) != Concat(r)
  {
  }

  /** Sides that were consumed together are equal. */
  lemma BothDone(l: seq<Segment>, r: seq<Segment>, e: Ends)
    requires Inside(l, r, e) && Accounts(l, r, e) && e.leftDone && e.rightDone
    ensures Settle(Trim(l, r, Meet(l, r, e)), Concat(l), Concat(r)) == Split(Concat(l), "", "", "")
    ensures Concat(l) == Concat(r)
  {
  }

  lemma SettleRebuilds(d: Split, left: string, right: string)
    requires Rebuilds(d, left, right)
    ensures Rebuilds(Settle(d, left, right), left, right)
    ensures Settle(d, left, right).left == "" && Settle(d, left, right).right == "" ==> left == right
  {
  }

  lemma OtherwiseRebuilds(l: seq<Segment>, r: seq<Segment>, e: Ends)
    requires Inside(l, r, e) && Accounts(l, r, e)
    requires !LeftTwice(l, r, e) && !RightTwice(l, r, e) && !OneTwice(l, r, e) && !(e.leftDone && e.rightDone)
    ensures var d := Settle(Trim(l, r, Meet(l, r, e)), Concat(l), Concat(r));
            && Rebuilds(d, Concat(l), Concat(r))
            && (d.left == "" && d.right == "" ==> Concat(l) == Concat(r))
  {
    hide Concat, Settle, CutShared, LeftTwice, RightTwice, OneTwice, Meet;
    MeetAccounts(l, r, e);
    var n := Meet(l, r, e);
    CutRebuilds(n.prefix, LeftRest(l, n), RightRest(r, n), n.suffix,
                r[n.rs].kind == Text && l[n.ls].kind == Text, l[n.le].kind == Text && r[n.re].kind == Text);
    SettleRebuilds(Trim(l, r, n), Concat(l), Concat(r));
  }

  // ----- equal inputs

  predicate Mirrored(e: Ends) {
    e.ls == e.rs && e.le == e.re && e.leftDone == e.rightDone
  }

  lemma {:induction false} PeelMirrored(l: seq<Segment>, e: Ends)
    requires Inside(l, l, e) && (Both(e) ==> !e.leftDone && !e.rightDone) && Mirrored(e)
    ensures Mirrored(Peel(l, l, e)) && !Both(Peel(l, l, e))
    decreases e.le - e.ls
  {
    if Both(e) {
      PeelMirrored(l, TakeBack(l, l, TakeFront(l, l, e)));
    }
  }

  lemma CutEqual(p: string, a: string, s: string, atStart: bool)
    ensures CutShared(p, a, a, s, atStart, true).left == "" && CutShared(p, a, a, s, atStart, true).right == ""
  {
  }

  lemma MeetMirrored(l: seq<Segment>, e: Ends)
    requires Inside(l, l, e) && Mirrored(e) && !Both(e)
    ensures var n := Meet(l, l, e);
            Mirrored(n) && n.ls == n.le && (n.leftDone || l[n.ls].kind == Text)
  {
  }

  /** No difference is found between equal inputs. */
  lemma EqualInputs(l: seq<Segment>)
    requires l != []
    ensures Settle(Trim(l, l, Meet(l, l, Peel(l, l, Start(l, l)))), Concat(l), Concat(l)) == Split(Concat(l), "", "", "")
  {
    hide Concat, Peel, CutShared, Meet;
    var e := Peel(l, l, Start(l, l));
    PeelMirrored(l, Start(l, l));
    MeetMirrored(l, e);
    var n := Meet(l, l, e);
    if n.leftDone {
      ConcatAt(l, n.ls);
      CutNothing(n.prefix, "", n.suffix, l[n.rs].kind == Text, l[n.re].kind == Text);
    } else {
      CutEqual(n.prefix, LeftRest(l, n), n.suffix, true);
    }
  }

  // ----- exactly when the comparison can be trusted

  /** Where the loop leaves the two sides. */
  function Peeled(left: string, right: string): (e: Ends)
    requires Segments(left) != [] && Segments(right) != []
    ensures Inside(Segments(left), Segments(right), e)
  {
    Peel(Segments(left), Segments(right), Start(Segments(left), Segments(right)))
  }

  /** One side was consumed by the loop, and its last segment, still in place, matches the other side once more. */
  predicate TakenTwice(left: string, right: string) {
    var l, r := Segments(left), Segments(right);
    l != [] && r != [] &&
    var e := Peeled(left, right);
    (LeftTwice(l, r, e) && !(left <= right)) || RightTwice(l, r, e) || OneTwice(l, r, e)
  }

  predicate DifferenceHidden(left: string, right: string) {
    var l, r := Segments(left), Segments(right);
    l != [] && r != [] && OneTwice(l, r, Peeled(left, right))
  }

  lemma StartAccounts(l: seq<Segment>, r: seq<Segment>)
    requires l != [] && r != []
    ensures Accounts(l, r, Start(l, r))
  {
    assert l[0..|l|] == l && r[0..|r|] == r;
  }

  /**
   * The parts rebuild both inputs unless a segment is taken twice, and no difference is reported exactly for equal
   * inputs and for those that differ in a segment taken twice.
   */
  lemma SplitRebuildsIff(left: string, right: string)
    ensures Rebuilds(SplitOf(left, right), left, right) <==> !TakenTwice(left, right)
    ensures var d := SplitOf(left, right);
            d.left == "" && d.right == "" <==> left == right || DifferenceHidden(left, right)
  {
    hide Concat, Segments, Segmented, Peel, Trim, Meet, Settle, Accounts, Solid;
    var l, r := Segments(left), Segments(right);
    SegmentsFit(left);
    SegmentsFit(right);
    SegmentsSolid(l);
    SegmentsSolid(r);
    ConcatNothing();
    if l != [] && r != [] {
      var e := Peeled(left, right);
      if left == right {
        EqualInputs(l);
      }
      StartAccounts(l, r);
      PeelAccounts(l, r, Start(l, r));
      if e.leftDone && e.rightDone {
        BothDone(l, r, e);
      } else if LeftTwice(l, r, e) {
        LeftTwiceLoses(l, r, e);
      } else if RightTwice(l, r, e) {
        RightTwiceLoses(l, r, e);
      } else if OneTwice(l, r, e) {
        OneTwiceLoses(l, r, e);
      } else {
        OtherwiseRebuilds(l, r, e);
      }
    }
  }

  lemma ConcatThree(a: Segment, b: Segment, c: Segment)
    ensures Concat([a, b]) == a.value + b.value
    ensures Concat([a, b, c]) == a.value + b.value + c.value
  {
    ConcatOne(b);
    ConcatOne(c);
    assert [a, b][1..] == [b] && [a, b, c][1..] == [b, c] && [b, c][1..] == [c];
    assert Concat([b, c]) == b.value + c.value;
  }

  /** A marker that is repeated at the end of the right side goes unnoticed. */
  lemma RepeatedMarkerUnnoticed(a: Segment, b: Segment)
    requires a.kind == Marker && IsMarker(a.value) && b.kind == Marker && IsMarker(b.value)
    ensures var left, right := a.value + b.value, a.value + b.value + b.value;
            SplitOf(left, right) == Split(left, "", "", "") && DifferenceHidden(left, right) && TakenTwice(left, right)
  {
    hide Concat, Segments, Settle, Trim, IsMarker, Meet;
    var l, r := [a, b], [a, b, b];
    ConcatThree(a, b, b);
    SegmentationUnique(l);
    SegmentationUnique(r);
    SegmentsSolid(l);
    SegmentsSolid(r);
    var e0 := Start(l, r);
    var e1 := TakeBack(l, r, TakeFront(l, r, e0));
    assert e1 == Ends(1, 1, 1, 1, "" + a.value, b.value + "", true, false);
    assert Peel(l, r, e0) == Peel(l, r, e1) == e1;
    StartAccounts(l, r);
    PeelAccounts(l, r, e0);
    OneTwiceLoses(l, r, e1);
  }

  lemma RepeatedMarkerExample()
    ensures SplitOf("<a><b>", "<a><b><b>") == Split("<a><b>", "", "", "")
  {
    hide SplitOf;
    RepeatedMarkerUnnoticed(Segment(Marker, "<a>"), Segment(Marker, "<b>"));
    assert "<a>" + "<b>" == "<a><b>" && "<a>" + "<b>" + "<b>" == "<a><b><b>";
  }

  lemma PlainSegments(t: string)
    requires IsPlain(t)
    ensures Segments(t) == [Segment(Text, t)] && Concat([Segment(Text, t)]) == t
  {
    hide Concat, Segments;
    ConcatOne(Segment(Text, t));
    SegmentationUnique([Segment(Text, t)]);
  }

  lemma PlainEnds(a: Segment, b: Segment)
    requires a.kind == Text && b.kind == Text
    ensures var e := Start([a], [b]);
            && Peel([a], [b], e) == e && Meet([a], [b], e) == e
            && !LeftTwice([a], [b], e) && !RightTwice([a], [b], e) && !OneTwice([a], [b], e)
            && Trim([a], [b], e) == CutShared("", a.value, b.value, "", true, true)
  {
    hide Concat, CutShared;
    ConcatOne(a);
    ConcatOne(b);
    assert [a][0..1] == [a] && [b][0..1] == [b];
  }

  /** Two plain texts are compared character by character from both ends. */
  lemma PlainTextSplit(left: string, right: string)
    requires IsPlain(left) && IsPlain(right)
    ensures !TakenTwice(left, right)
    ensures var d := SplitOf(left, right);
            d.left != "" && d.right != "" ==>
              d.left[0] != d.right[0] && d.left[|d.left| - 1] != d.right[|d.right| - 1]
  {
    hide Concat, Segments, CutShared, Trim, Peel, Meet, LeftTwice, RightTwice, OneTwice, IsPlain;
    PlainSegments(left);
    PlainSegments(right);
    PlainEnds(Segment(Text, left), Segment(Text, right));
    CutTight("", left, right, "");
  }

  lemma CutTight(p: string, a: string, b: string, s: string)
    ensures var d := CutShared(p, a, b, s, true, true);
            d.left != "" && d.right != "" ==>
              d.left[0] != d.right[0] && d.left[|d.left| - 1] != d.right[|d.right| - 1]
  {
  }
}
