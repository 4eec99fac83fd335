/** Lines of any bytes: the pieces into which decoding splits them, and which lines encode a text. */
module Utf8Lines {
  import opened Utf8
  import opened Utf8Text

  /** The pieces into which decoding splits a line, each with its number; malformed bytes are pieces of their own. */
  function DecodeAll(line: seq<Byte>, pos: nat): (pieces: seq<Decoded>)
    requires pos <= |line|
    decreases |line| - pos
  {
    if pos == |line| then []
    else
      var d := Decode(line, pos);
      [d] + DecodeAll(line, pos + d.advance)
  }

  /** Where the first `k` pieces end. */
  function EndOf(pieces: seq<Decoded>, k: nat): nat
    requires k <= |pieces|
  {
    if k == 0 then 0 else EndOf(pieces, k - 1) + pieces[k - 1].advance
  }

  function Codes(pieces: seq<Decoded>): (text: seq<CodePoint>)
    ensures |text| == |pieces|
  {
    seq(|pieces|, i requires 0 <= i < |pieces| => pieces[i].cp)
  }

  /** The line encodes a text. */
  ghost predicate WellFormed(line: seq<Byte>) {
    exists text :: AllValid(text) && EncodeAll(text) == line
  }

  /** From the beginning of a code point on, the pieces of an encoded text are its code points. */
  lemma {:induction false} DecodeFrom(text: seq<CodePoint>, k: nat)
    requires AllValid(text) && k <= |text|
    ensures Offset(text, k) <= |EncodeAll(text)|
    ensures var pieces := DecodeAll(EncodeAll(text), Offset(text, k));
            && |pieces| == |text| - k
            && forall i :: 0 <= i < |pieces| ==>
                 pieces[i].cp == text[k + i] && pieces[i].advance == Offset(text, k + i + 1) - Offset(text, k + i)
    decreases |text| - k
  {
    hide Decode, EncodeAll, Offset;
    OffsetEnd(text);
    OffsetMonotone(text, k, |text|);
    if k < |text| {
      NextIsOffset(text, k);
      DecodeFrom(text, k + 1);
    }
  }

  lemma {:induction false} EndsAreOffsets(text: seq<CodePoint>, k: nat)
    requires AllValid(text) && k <= |text|
    ensures var pieces := DecodeAll(EncodeAll(text), 0);
            |pieces| == |text| && EndOf(pieces, k) == Offset(text, k)
    decreases k
  {
    hide DecodeAll, EncodeAll, Offset;
    OffsetEnd(text);
    DecodeFrom(text, 0);
    if k > 0 {
      EndsAreOffsets(text, k - 1);
      OffsetMonotone(text, k - 1, k);
    }
  }

  /** Decoding a whole encoded text gives the text. */
  lemma DecodeAllEncoded(text: seq<CodePoint>)
    requires AllValid(text)
    ensures Codes(DecodeAll(EncodeAll(text), 0)) == text
  {
    hide DecodeAll, EncodeAll, Offset;
    OffsetEnd(text);
    DecodeFrom(text, 0);
  }

  /** A line is well formed exactly if what it decodes to is valid and encodes to the line again. */
  lemma WellFormedIff(line: seq<Byte>)
    ensures var text := Codes(DecodeAll(line, 0));
            WellFormed(line) <==> AllValid(text) && EncodeAll(text) == line
  {
    hide DecodeAll, EncodeAll, Codes;
    forall text | AllValid(text) && EncodeAll(text) == line
      ensures Codes(DecodeAll(line, 0)) == text
    {
      DecodeAllEncoded(text);
    }
  }
}
