/** UTF-8 texts: where code points begin, and that positions found by scanning bytes are such beginnings. */
module Utf8Text {
  import opened Utf8

  predicate AllValid(text: seq<CodePoint>) {
    forall i :: 0 <= i < |text| ==> Valid(text[i])
  }

  function EncodeAll(text: seq<CodePoint>): seq<Byte> {
    if text == [] then [] else Encode(text[0]) + EncodeAll(text[1..])
  }

  /** The encoded length of the first `k` code points. */
  function Offset(text: seq<CodePoint>, k: nat): nat
    requires k <= |text|
  {
    |EncodeAll(text[..k])|
  }

  lemma {:induction false} EncodeConcat(a: seq<CodePoint>, b: seq<CodePoint>)
    ensures EncodeAll(a + b) == EncodeAll(a) + EncodeAll(b)
  {
    hide Encode;
    if a == [] {
      assert a + b == b;
    } else {
      assert (a + b)[0] == a[0] && (a + b)[1..] == a[1..] + b;
      EncodeConcat(a[1..], b);
    }
  }

  lemma EncodeSingle(cp: CodePoint)
    ensures EncodeAll([cp]) == Encode(cp)
  {
  }

  /** The text around its code point `k`. */
  lemma SplitAt(text: seq<CodePoint>, k: nat)
    requires k < |text| && AllValid(text)
    ensures EncodeAll(text) == EncodeAll(text[..k]) + (Encode(text[k]) + EncodeAll(text[k + 1..]))
    ensures Offset(text, k + 1) == Offset(text, k) + |Encode(text[k])| <= |EncodeAll(text)|
  {
    hide Encode;
    assert text == text[..k] + ([text[k]] + text[k + 1..]);
    EncodeConcat(text[..k], [text[k]] + text[k + 1..]);
    EncodeConcat([text[k]], text[k + 1..]);
    EncodeSingle(text[k]);
    assert text[..k + 1] == text[..k] + [text[k]];
    EncodeConcat(text[..k], [text[k]]);
  }

  lemma OffsetEnd(text: seq<CodePoint>)
    ensures Offset(text, |text|) == |EncodeAll(text)| && Offset(text, 0) == 0
  {
    assert text[..|text|] == text && text[..0] == [];
  }

  lemma {:induction false} OffsetMonotone(text: seq<CodePoint>, j: nat, k: nat)
    requires j <= k <= |text| && AllValid(text)
    ensures Offset(text, j) + (k - j) <= Offset(text, k) <= |EncodeAll(text)|
    decreases k - j
  {
    hide Encode;
    if j < k {
      SplitAt(text, j);
      OffsetMonotone(text, j + 1, k);
      EncodeShape(text[j]);
    } else {
      EncodeConcat(text[..k], text[k..]);
      assert text[..k] + text[k..] == text;
    }
  }

  /** What begins at a beginning of a code point does not begin with a continuation byte. */
  lemma StartsPlain(text: seq<CodePoint>)
    requires AllValid(text) && text != []
    ensures EncodeAll(text) != [] && !Continuation(EncodeAll(text)[0])
  {
  }

  /** The bytes of one code point between those before and after it. */
  lemma Parts(line: seq<Byte>, before: seq<Byte>, e: seq<Byte>, tail: seq<Byte>)
    requires line == before + (e + tail)
    ensures var pos, next := |before|, |before| + |e|;
            && next <= |line| && line[pos..next] == e
            && (forall i :: pos <= i < next ==> line[i] == e[i - pos])
            && (if tail == [] then next == |line| else next < |line| && line[next] == tail[0])
  {
  }

  lemma SkipsCodePoint(line: seq<Byte>, before: seq<Byte>, e: seq<Byte>, tail: seq<Byte>)
    requires line == before + (e + tail) && e != [] && (forall i :: 0 < i < |e| ==> Continuation(e[i]))
    requires tail != [] ==> !Continuation(tail[0])
    ensures SkipContinuation(line, |before| + 1) == |before| + |e|
  {
    hide Continuation;
    Parts(line, before, e, tail);
    SkipsTo(line, |before| + 1, |before| + |e|);
  }

  /** From the beginning of a code point, the next position is the beginning of the next one, and decoding gives the code point. */
  lemma NextIsOffset(text: seq<CodePoint>, k: nat)
    requires AllValid(text) && k < |text|
    ensures var line, pos := EncodeAll(text), Offset(text, k);
            && pos < |line| && NextPos(line, pos) == Offset(text, k + 1)
            && Decode(line, pos) == Decoded(text[k], Offset(text, k + 1) - pos)
  {
    hide Encode, Continuation, Decode, EncodeAll, SkipContinuation;
    var line, before := EncodeAll(text), EncodeAll(text[..k]);
    var e, tail := Encode(text[k]), EncodeAll(text[k + 1..]);
    SplitAt(text, k);
    EncodeShape(text[k]);
    Parts(line, before, e, tail);
    DecodeEncoded(line, |before|, text[k]);
    if k + 1 < |text| {
      StartsPlain(text[k + 1..]);
    } else {
      EncodeNothing(text);
    }
    SkipsCodePoint(line, before, e, tail);
  }

  lemma EncodeNothing(text: seq<CodePoint>)
    ensures EncodeAll(text[|text|..]) == []
  {
  }

  lemma {:induction false} SkipsTo(line: seq<Byte>, pos: nat, next: nat)
    requires pos <= next <= |line| && (forall i :: pos <= i < next ==> Continuation(line[i]))
    requires next < |line| ==> !Continuation(line[next])
    ensures SkipContinuation(line, pos) == next
    decreases next - pos
  {
    if pos < next {
      SkipsTo(line, pos + 1, next);
    }
  }

  /** From the beginning of a code point, the previous position is the beginning of the previous one. */
  lemma PrevIsOffset(text: seq<CodePoint>, k: nat)
    requires AllValid(text) && 0 < k <= |text|
    ensures Offset(text, k) <= |EncodeAll(text)| && PrevPos(EncodeAll(text), Offset(text, k)) == Offset(text, k - 1)
  {
    hide Encode, Continuation;
    var line, pos, prev := EncodeAll(text), Offset(text, k), Offset(text, k - 1);
    var e := Encode(text[k - 1]);
    SplitAt(text, k - 1);
    EncodeShape(text[k - 1]);
    assert line[prev..pos] == e;
    assert line[prev] == e[0];
    forall i | prev < i < pos
      ensures Continuation(line[i])
    {
      assert line[i] == e[i - prev];
    }
    BacksTo(line, pos, prev);
  }

  lemma {:induction false} BacksTo(line: seq<Byte>, pos: nat, prev: nat)
    requires prev < pos <= |line| && (forall i :: prev < i < pos ==> Continuation(line[i])) && !Continuation(line[prev])
    ensures PrevPos(line, pos) == prev
    decreases pos
  {
    if pos > prev + 1 {
      BacksTo(line, pos - 1, prev);
    }
  }

  // ----- the text is determined by its bytes

  function Leads(bytes: seq<Byte>): nat {
    if bytes == [] then 0 else (if Continuation(bytes[0]) then 0 else 1) + Leads(bytes[1..])
  }

  lemma {:induction false} LeadsConcat(a: seq<Byte>, b: seq<Byte>)
    ensures Leads(a + b) == Leads(a) + Leads(b)
  {
    hide Continuation;
    if a == [] {
      assert a + b == b;
    } else {
      assert (a + b)[1..] == a[1..] + b;
      LeadsConcat(a[1..], b);
    }
  }

  lemma {:induction false} NoLeads(bytes: seq<Byte>)
    requires forall i :: 0 <= i < |bytes| ==> Continuation(bytes[i])
    ensures Leads(bytes) == 0
  {
    hide Continuation;
    if bytes != [] {
      NoLeads(bytes[1..]);
    }
  }

  /** There are as many code points as bytes that are not continuation bytes. */
  lemma {:induction false} LeadsCount(text: seq<CodePoint>)
    requires AllValid(text)
    ensures Leads(EncodeAll(text)) == |text|
  {
    hide Encode, Continuation;
    if text != [] {
      EncodeShape(text[0]);
      NoLeads(Encode(text[0])[1..]);
      LeadsConcat(Encode(text[0]), EncodeAll(text[1..]));
      LeadsCount(text[1..]);
    }
  }

  /** Different texts have different encodings. */
  lemma {:induction false} EncodeInjective(a: seq<CodePoint>, b: seq<CodePoint>)
    requires AllValid(a) && AllValid(b) && EncodeAll(a) == EncodeAll(b)
    ensures a == b
  {
    hide Encode, Decode;
    LeadsCount(a);
    LeadsCount(b);
    if a != [] {
      NextIsOffset(a, 0);
      NextIsOffset(b, 0);
      OffsetEnd(a);
      OffsetEnd(b);
      assert a[0] == b[0];
      SplitAt(a, 0);
      SplitAt(b, 0);
      assert EncodeAll(a[1..]) == EncodeAll(a)[|Encode(a[0])|..];
      assert EncodeAll(b[1..]) == EncodeAll(b)[|Encode(b[0])|..];
      EncodeInjective(a[1..], b[1..]);
      assert a == [a[0]] + a[1..] && b == [b[0]] + b[1..];
    }
  }
}
