/** Splitting template output into markers, such as `<tag>` or `[TAG]`, and the text between them. */
module Markers {

  datatype Kind = Text | Marker

  datatype Segment = Segment(kind: Kind, value: string)

  predicate IsOpener(c: char) {
    c == '<' || c == '['
  }

  predicate Closes(opener: char, c: char) {
    (opener == '<' && c == '>') || (opener == '[' && c == ']')
  }

  // ----- what a segmentation is

  function Concat(segs: seq<Segment>): string {
    if segs == [] then "" else segs[0].value + Concat(segs[1..])
  }

  /** A marker ends at the first closer that matches its opener. */
  predicate IsMarker(v: string) {
    && |v| >= 2 && IsOpener(v[0]) && Closes(v[0], v[|v| - 1])
    && forall i :: 0 < i < |v| - 1 ==> !Closes(v[0], v[i])
  }

  predicate IsPlain(v: string) {
    v != "" && forall i :: 0 <= i < |v| ==> !IsOpener(v[i])
  }

  /** Text that begins like a marker but is never closed. */
  predicate IsUnclosed(v: string) {
    v != "" && IsOpener(v[0]) && forall i :: 0 < i < |v| ==> !Closes(v[0], v[i])
  }

  /**
   * Markers run from an opener to its first closer; between them stands at most one piece of text without openers;
   * an opener that is never closed begins the last piece of text.
   */
  predicate Segmented(segs: seq<Segment>) {
    && (forall i :: 0 <= i < |segs| && segs[i].kind == Marker ==> IsMarker(segs[i].value))
    && (forall i :: 0 <= i < |segs| && segs[i].kind == Text ==>
          IsPlain(segs[i].value) || (i == |segs| - 1 && IsUnclosed(segs[i].value)))
    && (forall i :: 0 < i < |segs| && segs[i - 1].kind == Text && segs[i].kind == Text ==> IsUnclosed(segs[i].value))
  }

  lemma {:induction false} ConcatAppend(segs: seq<Segment>, more: seq<Segment>)
    ensures Concat(segs + more) == Concat(segs) + Concat(more)
    decreases segs
  {
    if segs == [] {
      assert segs + more == more;
    } else {
      assert (segs + more)[1..] == segs[1..] + more;
      ConcatAppend(segs[1..], more);
    }
  }

  /** A segmentation that does not end in an unclosed marker. */
  predicate Whole(segs: seq<Segment>) {
    Segmented(segs) && forall i :: 0 <= i < |segs| && segs[i].kind == Text ==> IsPlain(segs[i].value)
  }

  predicate EndsInText(segs: seq<Segment>) {
    segs != [] && segs[|segs| - 1].kind == Text
  }

  /** What may follow a segmentation so far. */
  lemma NextSegment(segs: seq<Segment>, seg: Segment)
    requires Whole(segs)
    requires match seg.kind
             case Marker => IsMarker(seg.value)
             case Text => (IsPlain(seg.value) && !EndsInText(segs)) || IsUnclosed(seg.value)
    ensures Segmented(segs + [seg]) && Concat(segs + [seg]) == Concat(segs) + seg.value
    ensures EndsInText(segs + [seg]) <==> seg.kind == Text
    ensures seg.kind == Marker || IsPlain(seg.value) ==> Whole(segs + [seg])
  {
    hide Concat, IsMarker, IsPlain, IsUnclosed;
    ConcatAppend(segs, [seg]);
    ConcatOne(seg);
  }

  lemma ConcatOne(seg: Segment)
    ensures Concat([seg]) == seg.value
  {
  }

  // ----- the loop

  /** Where the loop stands: before the border all is segmented, after it there is plain text or an open marker. */
  predicate Scanned(text: string, border: nat, cur: nat, inMarker: bool, segs: seq<Segment>) {
    && border <= cur <= |text| && Concat(segs) == text[..border] && Whole(segs)
    && (inMarker ==> IsUnclosed(text[border..cur]))
    && (!inMarker ==> !EndsInText(segs) && forall i :: border <= i < cur ==> !IsOpener(text[i]))
  }

  lemma Advance(text: string, border: nat, cur: nat, inMarker: bool, segs: seq<Segment>)
    requires cur < |text| && Scanned(text, border, cur, inMarker, segs)
    ensures !inMarker && !IsOpener(text[cur]) ==> Scanned(text, border, cur + 1, false, segs)
    ensures !inMarker && IsOpener(text[cur]) && border == cur ==> Scanned(text, cur, cur + 1, true, segs)
    ensures !inMarker && IsOpener(text[cur]) && border < cur ==>
              Scanned(text, cur, cur + 1, true, segs + [Segment(Text, text[border..cur])])
  {
    hide Segmented, Concat;
    if !inMarker && IsOpener(text[cur]) {
      assert IsUnclosed(text[cur..cur + 1]);
      if border < cur {
        assert IsPlain(text[border..cur]);
        NextSegment(segs, Segment(Text, text[border..cur]));
        assert text[..cur] == text[..border] + text[border..cur];
      }
    }
  }

  lemma AdvanceInMarker(text: string, border: nat, cur: nat, segs: seq<Segment>)
    requires cur < |text| && Scanned(text, border, cur, true, segs)
    ensures border < cur
    ensures !Closes(text[border], text[cur]) ==> Scanned(text, border, cur + 1, true, segs)
    ensures Closes(text[border], text[cur]) ==>
              Scanned(text, cur + 1, cur + 1, false, segs + [Segment(Marker, text[border..cur + 1])])
  {
    hide Segmented, Concat;
    var v := text[border..cur + 1];
    assert v == text[border..cur] + [text[cur]];
    if Closes(text[border], text[cur]) {
      assert IsMarker(v);
      NextSegment(segs, Segment(Marker, v));
      assert text[..cur + 1] == text[..border] + v;
    }
  }

  lemma Finished(text: string, border: nat, inMarker: bool, segs: seq<Segment>)
    requires Scanned(text, border, |text|, inMarker, segs)
    ensures border == |text| ==> Concat(segs) == text && Segmented(segs)
    ensures border < |text| ==>
              Concat(segs + [Segment(Text, text[border..])]) == text && Segmented(segs + [Segment(Text, text[border..])])
  {
    hide Segmented, Concat;
    assert text[..|text|] == text && text[border..|text|] == text[border..];
    if border < |text| {
      assert inMarker || IsPlain(text[border..]);
      NextSegment(segs, Segment(Text, text[border..]));
      assert text[..border] + text[border..] == text;
    }
  }

  /** Segments tile the text and follow the rules; by `SegmentationUnique` they are the only ones that do. */
  method SegmentizeMarkers(text: string) returns (segs: seq<Segment>)
    ensures Concat(segs) == text
    ensures Segmented(segs)
  {
    hide Concat, Segmented, IsUnclosed, Closes, IsOpener;
    segs := [];
    ConcatNothing();
    var inMarker, opener, border := false, '\0', 0;
    for cur := 0 to |text|
      invariant Scanned(text, border, cur, inMarker, segs)
      invariant inMarker ==> border < cur && opener == text[border]
    {
      if inMarker {
        AdvanceInMarker(text, border, cur, segs);
      } else {
        Advance(text, border, cur, inMarker, segs);
      }
      if !inMarker && IsOpener(text[cur]) {
        if border < cur {
          segs := segs + [Segment(Text, text[border..cur])];
        }
        border, inMarker, opener := cur, true, text[cur];
      } else if inMarker && Closes(opener, text[cur]) {
        segs := segs + [Segment(Marker, text[border..cur + 1])];
        border, inMarker, opener := cur + 1, false, '\0';
      }
    }
    Finished(text, border, inMarker, segs);
    if border < |text| {
      segs := segs + [Segment(Text, text[border..])];
    }
  }

  lemma ConcatNothing()
    ensures Concat([]) == "" && Segmented([])
  {
  }

  // ----- there is one segmentation

  /** The position of the first closer of `opener` from `i` on, or the length. */
  function FirstCloser(opener: char, text: string, i: nat): (p: nat)
    requires i <= |text|
    ensures i <= p <= |text| && (p < |text| ==> Closes(opener, text[p]))
    ensures forall k :: i <= k < p ==> !Closes(opener, text[k])
    decreases |text| - i
  {
    if i == |text| || Closes(opener, text[i]) then i else FirstCloser(opener, text, i + 1)
  }

  function FirstOpener(text: string, i: nat): (p: nat)
    requires i <= |text|
    ensures i <= p <= |text| && (p < |text| ==> IsOpener(text[p]))
    ensures forall k :: i <= k < p ==> !IsOpener(text[k])
    decreases |text| - i
  {
    if i == |text| || IsOpener(text[i]) then i else FirstOpener(text, i + 1)
  }

  /** The first segment of a text. */
  function Head(text: string): (seg: Segment)
    requires text != ""
    ensures seg.value != "" && seg.value <= text
  {
    if IsOpener(text[0]) then
      var p := FirstCloser(text[0], text, 1);
      if p < |text| then Segment(Marker, text[..p + 1]) else Segment(Text, text)
    else
      Segment(Text, text[..FirstOpener(text, 0)])
  }

  function Segments(text: string): seq<Segment>
    decreases |text|
  {
    if text == "" then []
    else
      var head := Head(text);
      [head] + Segments(text[|head.value|..])
  }

  lemma TailSegmented(segs: seq<Segment>)
    requires Segmented(segs) && segs != []
    ensures Segmented(segs[1..]) && segs[0].value != ""
    ensures segs[0].kind == Text && IsPlain(segs[0].value) && |segs| > 1 ==> IsOpener(segs[1].value[0])
  {
  }

  /** After the first segment comes the first character of the second one. */
  lemma ConcatHead(segs: seq<Segment>)
    requires segs != []
    ensures segs[0].value <= Concat(segs) && Concat(segs)[|segs[0].value|..] == Concat(segs[1..])
    ensures |segs| > 1 && segs[1].value != "" ==>
              |Concat(segs)| > |segs[0].value| && Concat(segs)[|segs[0].value|] == segs[1].value[0]
    ensures |segs| == 1 ==> Concat(segs) == segs[0].value
  {
  }

  /** The rules leave no choice for the first segment. */
  lemma HeadDetermined(segs: seq<Segment>)
    requires Segmented(segs) && segs != []
    ensures Concat(segs) != "" && segs[0] == Head(Concat(segs))
  {
    hide Concat;
    var text, first := Concat(segs), segs[0];
    TailSegmented(segs);
    ConcatHead(segs);
    var n := |first.value|;
    assert text[..n] == first.value && text[0] == first.value[0];
    if first.kind == Marker {
      assert Closes(text[0], text[n - 1]);
      assert forall k :: 1 <= k < n - 1 ==> !Closes(text[0], text[k]);
      assert FirstCloser(text[0], text, 1) == n - 1;
    } else if IsPlain(first.value) {
      assert forall k :: 0 <= k < n ==> !IsOpener(text[k]);
      if |segs| > 1 {
        assert IsOpener(text[n]);
      }
      assert FirstOpener(text, 0) == n;
    } else {
      assert text == first.value;
    }
  }

  /** A segmentation that follows the rules is the only one of its text. */
  lemma {:induction false} SegmentationUnique(segs: seq<Segment>)
    requires Segmented(segs)
    ensures segs == Segments(Concat(segs))
    decreases segs
  {
    hide Head, IsMarker, IsPlain, IsUnclosed;
    if segs != [] {
      HeadDetermined(segs);
      ConcatHead(segs);
      TailSegmented(segs);
      SegmentationUnique(segs[1..]);
      assert segs == [segs[0]] + segs[1..];
    }
  }

  lemma HeadShape(text: string)
    requires text != ""
    ensures var head := Head(text);
            && (head.kind == Marker ==> IsMarker(head.value))
            && (head.kind == Text ==> (IsPlain(head.value) && (head.value == text || IsOpener(text[|head.value|])))
                                      || (head.value == text && IsUnclosed(text)))
            && (IsOpener(text[0]) && head.kind == Text ==> IsUnclosed(head.value))
  {
  }

  lemma PrependSegment(seg: Segment, segs: seq<Segment>)
    requires Segmented(segs)
    requires seg.kind == Marker ==> IsMarker(seg.value)
    requires seg.kind == Text ==> IsPlain(seg.value) || (segs == [] && IsUnclosed(seg.value))
    requires seg.kind == Text && segs != [] && segs[0].kind == Text ==> IsUnclosed(segs[0].value)
    ensures Segmented([seg] + segs) && Concat([seg] + segs) == seg.value + Concat(segs)
  {
  }

  /** Every text has such a segmentation. */
  lemma {:induction false} SegmentsFit(text: string)
    ensures Segmented(Segments(text)) && Concat(Segments(text)) == text
    decreases |text|
  {
    hide Head, IsMarker, IsPlain, IsUnclosed, Segmented, Concat;
    if text == "" {
      ConcatNothing();
    } else {
      var head := Head(text);
      var rest := text[|head.value|..];
      HeadShape(text);
      SegmentsFit(rest);
      if rest != "" {
        HeadShape(rest);
      }
      PrependSegment(head, Segments(rest));
    }
  }

  /** A marker is closed by its own kind of bracket only. */
  lemma BracketsExample()
    ensures Segments("a[<b]<c]>d")
            == [Segment(Text, "a"), Segment(Marker, "[<b]"), Segment(Marker, "<c]>"), Segment(Text, "d")]
  {
    hide Segments;
    var segs := [Segment(Text, "a"), Segment(Marker, "[<b]"), Segment(Marker, "<c]>"), Segment(Text, "d")];
    assert segs[3..] == [segs[3]] && segs[2..][1..] == segs[3..] && segs[1..][1..] == segs[2..];
    ConcatOne(segs[3]);
    assert Concat(segs[2..]) == "<c]>d";
    assert Concat(segs[1..]) == "[<b]<c]>d";
    assert Concat(segs) == "a[<b]<c]>d";
    assert IsMarker("[<b]") && IsMarker("<c]>") && IsPlain("a") && IsPlain("d");
    SegmentationUnique(segs);
  }
}
