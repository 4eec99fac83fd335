/** UTF-8 as the line editor reads and writes it (section 3 of RFC 3629). */
module Utf8 {

  type Byte = bv8
  type CodePoint = bv32

  const REPLACEMENT: CodePoint := 0xFFFD

  predicate Valid(cp: CodePoint) {
    cp <= 0x10FFFF
  }

  predicate Continuation(b: Byte) {
    b & 0xC0 == 0x80
  }

  function Low(cp: CodePoint, shift: bv8): (b: Byte)
    requires shift <= 18
  {
    0x80 | (((cp >> shift) & 0x3F) as Byte)
  }

  /** The bytes appended for a code point; nothing for numbers that are not code points. */
  function Encode(cp: CodePoint): (bytes: seq<Byte>)
    ensures |bytes| <= 4 && (bytes == [] <==> !Valid(cp))
  {
    if cp <= 0x7F then [cp as Byte]
    else if cp <= 0x7FF then [0xC0 | (((cp >> 6) & 0x1F) as Byte), Low(cp, 0)]
    else if cp <= 0xFFFF then [0xE0 | (((cp >> 12) & 0x0F) as Byte), Low(cp, 6), Low(cp, 0)]
    else if cp <= 0x10FFFF then [0xF0 | (((cp >> 18) & 0x07) as Byte), Low(cp, 12), Low(cp, 6), Low(cp, 0)]
    else []
  }

  datatype Decoded = Decoded(cp: CodePoint, advance: nat)

  function Six(b: Byte): CodePoint {
    (b & 0x3F) as CodePoint
  }

  /** The code point at `pos` and the number of bytes it takes; malformed input gives the replacement character. */
  function Decode(input: seq<Byte>, pos: nat): (d: Decoded)
    requires pos < |input|
    ensures 1 <= d.advance <= |input| - pos
  {
    var c := input[pos];
    if c & 0x80 == 0 then Decoded(c as CodePoint, 1)
    else if c & 0xE0 == 0xC0 && pos + 1 < |input| then
      if !Continuation(input[pos + 1]) then Decoded(REPLACEMENT, 1)
      else Decoded((((c & 0x1F) as CodePoint) << 6) | Six(input[pos + 1]), 2)
    else if c & 0xF0 == 0xE0 && pos + 2 < |input| then
      if !Continuation(input[pos + 1]) || !Continuation(input[pos + 2]) then Decoded(REPLACEMENT, 1)
      else Decoded((((c & 0x0F) as CodePoint) << 12) | (Six(input[pos + 1]) << 6) | Six(input[pos + 2]), 3)
    else if c & 0xF8 == 0xF0 && pos + 3 < |input| then
      if !Continuation(input[pos + 1]) || !Continuation(input[pos + 2]) || !Continuation(input[pos + 3]) then
        Decoded(REPLACEMENT, 1)
      else
        Decoded((((c & 0x07) as CodePoint) << 18) | (Six(input[pos + 1]) << 12) | (Six(input[pos + 2]) << 6)
                | Six(input[pos + 3]), 4)
    else Decoded(REPLACEMENT, 1)
  }

  function PrevPos(line: seq<Byte>, pos: nat): (prev: nat)
    requires pos <= |line|
    ensures pos > 0 ==> prev < pos
  {
    if pos == 0 then 0 else if pos > 1 && Continuation(line[pos - 1]) then PrevPos(line, pos - 1) else pos - 1
  }

  function SkipContinuation(line: seq<Byte>, pos: nat): (next: nat)
    requires pos <= |line|
    ensures pos <= next <= |line|
    decreases |line| - pos
  {
    if pos < |line| && Continuation(line[pos]) then SkipContinuation(line, pos + 1) else pos
  }

  function NextPos(line: seq<Byte>, pos: nat): (next: nat)
    ensures next <= |line| && (pos < |line| ==> pos < next)
  {
    if pos >= |line| then |line| else SkipContinuation(line, pos + 1)
  }

  method PrevUtf8CharPos(line: seq<Byte>, start: nat) returns (pos: nat)
    requires start <= |line|
    ensures pos == PrevPos(line, start)
  {
    if start == 0 {
      return 0;
    }
    pos := start - 1;
    while pos > 0 && line[pos] & 0xC0 == 0x80
      invariant 0 <= pos < start
      invariant PrevPos(line, pos + 1) == PrevPos(line, start)
    {
      pos := pos - 1;
    }
  }

  method NextUtf8CharPos(line: seq<Byte>, start: nat) returns (pos: nat)
    ensures pos == NextPos(line, start)
  {
    if start >= |line| {
      return |line|;
    }
    pos := start + 1;
    while pos < |line| && line[pos] & 0xC0 == 0x80
      invariant start < pos <= |line|
      invariant SkipContinuation(line, pos) == NextPos(line, start)
    {
      pos := pos + 1;
    }
  }

  // ----- one code point

  /** An encoding is one leading byte followed by continuation bytes. */
  lemma EncodeShape(cp: CodePoint)
    requires Valid(cp)
    ensures var e := Encode(cp);
            1 <= |e| <= 4 && !Continuation(e[0]) && forall i :: 1 <= i < |e| ==> Continuation(e[i])
  {
  }

  /** Decoding what was encoded gives the code point and its length, whatever follows. */
  lemma DecodeEncoded(input: seq<Byte>, pos: nat, cp: CodePoint)
    requires Valid(cp) && pos + |Encode(cp)| <= |input| && input[pos..pos + |Encode(cp)|] == Encode(cp)
    ensures Decode(input, pos) == Decoded(cp, |Encode(cp)|)
  {
    hide Decode, Low, Six;
    var e := Encode(cp);
    assert forall i :: 0 <= i < |e| ==> input[pos + i] == input[pos..pos + |e|][i] == e[i];
    assert input[pos] == e[0];
    if cp <= 0x7F {
      DecodeOne(input, pos, cp);
    } else if cp <= 0x7FF {
      DecodeTwo(input, pos, cp);
    } else if cp <= 0xFFFF {
      DecodeThree(input, pos, cp);
    } else {
      DecodeFour(input, pos, cp);
    }
  }

  /** The byte that begins an encoding of `n` bytes. */
  predicate Leads(b: Byte, n: nat) {
    match n
    case 1 => b < 0x80
    case 2 => 0xC0 <= b < 0xE0
    case 3 => 0xE0 <= b < 0xF0
    case 4 => 0xF0 <= b < 0xF8
    case _ => false
  }

  /** A leading byte and all the continuation bytes it announces. */
  predicate Complete(input: seq<Byte>, pos: nat, n: nat) {
    1 <= n && pos + n <= |input| && Leads(input[pos], n) && forall i :: pos < i < pos + n ==> Continuation(input[i])
  }

  /** Exactly complete encodings are taken as a whole; any other byte is replaced alone. */
  lemma DecodeMalformed(input: seq<Byte>, pos: nat)
    requires pos < |input|
    ensures var d := Decode(input, pos);
            && (d.advance > 1 ==> Complete(input, pos, d.advance))
            && (forall n :: Complete(input, pos, n) ==> d.advance == n)
            && (Complete(input, pos, 1) ==> d.cp == input[pos] as CodePoint)
            && (!Complete(input, pos, 1) && !Complete(input, pos, 2) && !Complete(input, pos, 3) && !Complete(input, pos, 4)
                ==> d == Decoded(0xFFFD, 1))
  {
  }

  /** The examples of section 7 of RFC 3629, and the largest code points of each length. */
  lemma EncodeExamples()
    ensures Encode(0x41) == [0x41] && Encode(0x7F) == [0x7F]
    ensures Encode(0x391) == [0xCE, 0x91] && Encode(0x7FF) == [0xDF, 0xBF]
    ensures Encode(0x2262) == [0xE2, 0x89, 0xA2] && Encode(0xFFFF) == [0xEF, 0xBF, 0xBF]
    ensures Encode(0x233B4) == [0xF0, 0xA3, 0x8E, 0xB4] && Encode(0x10FFFF) == [0xF4, 0x8F, 0xBF, 0xBF]
  {
  }

  lemma DecodeOne(input: seq<Byte>, pos: nat, cp: CodePoint)
    requires cp <= 0x7F && pos < |input| && input[pos] == cp as Byte
    ensures Decode(input, pos) == Decoded(cp, 1)
  {
  }

  lemma DecodeTwo(input: seq<Byte>, pos: nat, cp: CodePoint)
    requires 0x7F < cp <= 0x7FF && pos + 1 < |input|
    requires input[pos] == 0xC0 | (((cp >> 6) & 0x1F) as Byte) && input[pos + 1] == Low(cp, 0)
    ensures Decode(input, pos) == Decoded(cp, 2)
  {
  }

  lemma DecodeThree(input: seq<Byte>, pos: nat, cp: CodePoint)
    requires 0x7FF < cp <= 0xFFFF && pos + 2 < |input|
    requires input[pos] == 0xE0 | (((cp >> 12) & 0x0F) as Byte)
    requires input[pos + 1] == Low(cp, 6) && input[pos + 2] == Low(cp, 0)
    ensures Decode(input, pos) == Decoded(cp, 3)
  {
  }

  lemma DecodeFour(input: seq<Byte>, pos: nat, cp: CodePoint)
    requires 0xFFFF < cp <= 0x10FFFF && pos + 3 < |input|
    requires input[pos] == 0xF0 | (((cp >> 18) & 0x07) as Byte)
    requires input[pos + 1] == Low(cp, 12) && input[pos + 2] == Low(cp, 6) && input[pos + 3] == Low(cp, 0)
    ensures Decode(input, pos) == Decoded(cp, 4)
  {
  }
}
