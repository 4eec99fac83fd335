/** Base64 encoding and decoding (sections 4 and 5 of RFC 4648). */
module Base64 {
  import opened Basics

  type Byte = bv8

  datatype Alphabet = Auto | Standard | UrlSafe

  datatype Behavior = Moderate | Loose

  datatype Result = Ok(bytes: seq<Byte>) | Invalid

  const PAD: Byte := 0x3D

  // ----- the alphabets

  /** The letter of a six-bit value. */
  function Letter(v: Byte, a: Alphabet): Byte
    requires v < 64
  {
    if v < 26 then v + 0x41
    else if v < 52 then v - 26 + 0x61
    else if v < 62 then v - 52 + 0x30
    else if v == 62 then (if a == UrlSafe then 0x2D else 0x2B)
    else (if a == UrlSafe then 0x5F else 0x2F)
  }

  const UPPER := "ABCDEFGHIJKLMNOPQRSTUVWXYZ"
  const LOWER := "abcdefghijklmnopqrstuvwxyz"
  const DIGITS := "0123456789"

  /** The table of the alphabet (tables 1 and 2 of RFC 4648). */
  function Table(a: Alphabet): (t: string)
    ensures |t| == 64
  {
    UPPER + LOWER + DIGITS + (if a == UrlSafe then "-_" else "+/")
  }

  /** Letters are those of the table. */
  lemma LetterInTable(v: Byte, a: Alphabet)
    requires v < 64
    ensures Letter(v, a) as int == Table(a)[v as int] as int
  {
  }

  datatype Symbol = Value(v: Byte, now: Alphabet) | NoSymbol

  /** The value of a letter, and the alphabet as far as it is known after it. */
  function ValueOf(a: Alphabet, c: Byte): (s: Symbol)
    ensures s.Value? ==> s.v < 64
  {
    if 0x41 <= c <= 0x5A then Value(c - 0x41, a)
    else if 0x61 <= c <= 0x7A then Value(c - 0x61 + 26, a)
    else if 0x30 <= c <= 0x39 then Value(c - 0x30 + 52, a)
    else if a != UrlSafe && c == 0x2B then Value(62, Standard)
    else if a != UrlSafe && c == 0x2F then Value(63, Standard)
    else if a != Standard && c == 0x2D then Value(62, UrlSafe)
    else if a != Standard && c == 0x5F then Value(63, UrlSafe)
    else NoSymbol
  }

  /** Every letter has its value, in its own alphabet and when the alphabet is detected. */
  lemma ValueOfLetter(v: Byte, a: Alphabet)
    requires v < 64 && a != Auto
    ensures Letter(v, a) != PAD
    ensures ValueOf(a, Letter(v, a)).Value? && ValueOf(a, Letter(v, a)).v == v && ValueOf(a, Letter(v, a)).now == a
    ensures ValueOf(Auto, Letter(v, a)).Value? && ValueOf(Auto, Letter(v, a)).v == v
            && (ValueOf(Auto, Letter(v, a)).now == if v < 62 then Auto else a)
  {
  }

  /** One of the letters of the alphabet's table. */
  ghost predicate InTable(a: Alphabet, c: Byte) {
    exists v: Byte :: v < 64 && Letter(v, a) == c
  }

  lemma ValueIsLetter(a: Alphabet, c: Byte)
    requires ValueOf(a, c).Value?
    ensures var s := ValueOf(a, c);
            Letter(s.v, if s.now == Auto then a else s.now) == c && (a != Auto ==> s.now == a)
  {
  }

  /** Exactly the letters of the table have a value, and those of either table when the alphabet is detected. */
  lemma ValueIff(a: Alphabet, c: Byte)
    ensures ValueOf(a, c).Value? <==> (a != UrlSafe && InTable(Standard, c)) || (a != Standard && InTable(UrlSafe, c))
  {
    hide ValueOf;
    if ValueOf(a, c).Value? {
      ValueIsLetter(a, c);
      AutoLetter(ValueOf(a, c).v);
    }
    if a != UrlSafe && InTable(Standard, c) {
      var v: Byte :| v < 64 && Letter(v, Standard) == c;
      ValueOfLetter(v, Standard);
    }
    if a != Standard && InTable(UrlSafe, c) {
      var v: Byte :| v < 64 && Letter(v, UrlSafe) == c;
      ValueOfLetter(v, UrlSafe);
    }
  }

  lemma AutoLetter(v: Byte)
    requires v < 64
    ensures Letter(v, Auto) == Letter(v, Standard)
  {
  }

  // ----- encoding by 24-bit groups

  function Group(b0: Byte, b1: Byte, b2: Byte): bv24 {
    ((b0 as bv24) << 16) | ((b1 as bv24) << 8) | (b2 as bv24)
  }

  /** The six bits of a group that are followed by `shift` others. */
  function Sixth(group: bv24, shift: bv8): (v: Byte)
    requires shift <= 18
    ensures v < 64
  {
    ((group >> shift) & 0x3F) as Byte
  }

  /** The first `n` letters of a group. */
  function Letters(group: bv24, n: nat, a: Alphabet): (letters: seq<Byte>)
    requires 2 <= n <= 4
    ensures |letters| == n
  {
    [Letter(Sixth(group, 18), a), Letter(Sixth(group, 12), a), Letter(Sixth(group, 6), a), Letter(Sixth(group, 0), a)][..n]
  }

  /** Three bytes give four letters; one or two bytes at the end give two or three letters and padding. */
  function Encoded(bytes: seq<Byte>, a: Alphabet): seq<Byte> {
    if |bytes| == 0 then []
    else if |bytes| == 1 then Letters(Group(bytes[0], 0, 0), 2, a) + [PAD, PAD]
    else if |bytes| == 2 then Letters(Group(bytes[0], bytes[1], 0), 3, a) + [PAD]
    else Letters(Group(bytes[0], bytes[1], bytes[2]), 4, a) + Encoded(bytes[3..], a)
  }

  function RequiredEncodeSize(size: nat): nat {
    (size / 3 + if size % 3 != 0 then 1 else 0) * 4
  }

  function MaxDecodeSize(size: nat): nat {
    (size / 4 + if size % 4 != 0 then 1 else 0) * 3
  }

  lemma {:induction false} EncodedSize(bytes: seq<Byte>, a: Alphabet)
    ensures |Encoded(bytes, a)| == RequiredEncodeSize(|bytes|)
    decreases bytes
  {
    hide Letters, Group;
    if |bytes| > 2 {
      EncodedSize(bytes[3..], a);
    }
  }

  /** The size formulas fit together: room for what was encoded, and for less than three bytes more. */
  lemma SizesFit(size: nat)
    ensures size <= MaxDecodeSize(RequiredEncodeSize(size)) < size + 3
  {
  }

  /** The letters computed byte by byte are the letters of the group. */
  lemma LettersOfByte(i0: Byte, a: Alphabet)
    ensures [Letter((i0 >> 2) & 0x3F, a), Letter((i0 & 0x3) << 4, a)] == Letters(Group(i0, 0, 0), 2, a)
  {
  }

  lemma LettersOfBytes(i0: Byte, i1: Byte, a: Alphabet)
    ensures [Letter((i0 >> 2) & 0x3F, a), Letter(((i0 & 0x3) << 4) | ((i1 >> 4) & 0x0F), a), Letter((i1 & 0xF) << 2, a)]
            == Letters(Group(i0, i1, 0), 3, a)
  {
  }

  lemma LettersOfGroupBytes(i0: Byte, i1: Byte, i2: Byte, a: Alphabet)
    ensures [Letter((i0 >> 2) & 0x3F, a), Letter(((i0 & 0x3) << 4) | ((i1 >> 4) & 0x0F), a),
             Letter(((i1 & 0xF) << 2) | ((i2 >> 6) & 0x03), a), Letter(i2 & 0x3F, a)]
            == Letters(Group(i0, i1, i2), 4, a)
  {
  }

  lemma EncodedOne(input: seq<Byte>, i: nat, a: Alphabet, before: seq<Byte>, c0: Byte, c1: Byte)
    requires i + 1 == |input| && [c0, c1] == Letters(Group(input[i], 0, 0), 2, a)
    ensures before + [c0] + [c1] + [PAD] + [PAD] == before + Encoded(input[i..], a)
  {
  }

  lemma EncodedTwo(input: seq<Byte>, i: nat, a: Alphabet, before: seq<Byte>, c0: Byte, c1: Byte, c2: Byte)
    requires i + 2 == |input| && [c0, c1, c2] == Letters(Group(input[i], input[i + 1], 0), 3, a)
    ensures before + [c0] + [c1] + [c2] + [PAD] == before + Encoded(input[i..], a)
  {
  }

  lemma EncodedThree(input: seq<Byte>, i: nat, a: Alphabet, before: seq<Byte>, c0: Byte, c1: Byte, c2: Byte, c3: Byte)
    requires i + 3 <= |input| && [c0, c1, c2, c3] == Letters(Group(input[i], input[i + 1], input[i + 2]), 4, a)
    ensures before + [c0] + [c1] + [c2] + [c3] + Encoded(input[i + 3..], a) == before + Encoded(input[i..], a)
  {
  }

  lemma EncodedNothing(input: seq<Byte>, a: Alphabet)
    ensures Encoded(input[|input|..], a) == [] && input[0..] == input
  {
  }

  method Encode(input: seq<Byte>, alphabet: Alphabet) returns (out: seq<Byte>)
    ensures out == Encoded(input, alphabet)
    ensures |out| == RequiredEncodeSize(|input|)
  {
    hide Letter, Letters, Group, Encoded;
    EncodedNothing(input, alphabet);
    EncodedSize(input, alphabet);
    out := [];
    var i := 0;
    while i < |input|
      invariant 0 <= i <= |input|
      invariant out + Encoded(input[i..], alphabet) == Encoded(input, alphabet)
    {
      ghost var before, from := out, i;
      var i0 := input[i];
      i := i + 1;
      out := out + [Letter((i0 >> 2) & 0x3F, alphabet)];
      if i == |input| {
        out := out + [Letter((i0 & 0x3) << 4, alphabet)];
        out := out + [PAD];
        out := out + [PAD];
        LettersOfByte(i0, alphabet);
        EncodedOne(input, from, alphabet, before, Letter((i0 >> 2) & 0x3F, alphabet), Letter((i0 & 0x3) << 4, alphabet));
        return;
      }
      var i1 := input[i];
      i := i + 1;
      out := out + [Letter(((i0 & 0x3) << 4) | ((i1 >> 4) & 0x0F), alphabet)];
      if i == |input| {
        out := out + [Letter((i1 & 0xF) << 2, alphabet)];
        out := out + [PAD];
        LettersOfBytes(i0, i1, alphabet);
        EncodedTwo(input, from, alphabet, before, Letter((i0 >> 2) & 0x3F, alphabet),
                   Letter(((i0 & 0x3) << 4) | ((i1 >> 4) & 0x0F), alphabet), Letter((i1 & 0xF) << 2, alphabet));
        return;
      }
      var i2 := input[i];
      i := i + 1;
      out := out + [Letter(((i1 & 0xF) << 2) | ((i2 >> 6) & 0x03), alphabet)];
      out := out + [Letter(i2 & 0x3F, alphabet)];
      LettersOfGroupBytes(i0, i1, i2, alphabet);
      EncodedThree(input, from, alphabet, before, Letter((i0 >> 2) & 0x3F, alphabet),
                   Letter(((i0 & 0x3) << 4) | ((i1 >> 4) & 0x0F), alphabet),
                   Letter(((i1 & 0xF) << 2) | ((i2 >> 6) & 0x03), alphabet), Letter(i2 & 0x3F, alphabet));
    }
  }

  // ----- decoding

  /** The position of the first padding character, or the length. */
  function FirstPad(t: seq<Byte>): (p: nat)
    ensures p <= |t| && (p < |t| ==> t[p] == PAD) && forall i :: 0 <= i < p ==> t[i] != PAD
  {
    if t == [] || t[0] == PAD then 0 else 1 + FirstPad(t[1..])
  }

  /** The values of letters; in automatic mode the first letter that tells the alphabets apart settles the alphabet. */
  function Values(a: Alphabet, t: seq<Byte>): (v: Option<seq<Byte>>)
    ensures v.Some? ==> |v.value| == |t|
    decreases t
  {
    if t == [] then Some([])
    else match ValueOf(a, t[0])
         case NoSymbol => None
         case Value(v, now) =>
           var rest := Values(now, t[1..]);
           if rest.None? then None else Some([v] + rest.value)
  }

  function Group4(v0: Byte, v1: Byte, v2: Byte, v3: Byte): bv24 {
    ((v0 as bv24) << 18) | ((v1 as bv24) << 12) | ((v2 as bv24) << 6) | (v3 as bv24)
  }

  /** The byte of a group that is followed by `shift` other bits. */
  function ByteOf(group: bv24, shift: bv8): Byte
    requires shift <= 16
  {
    ((group >> shift) & 0xFF) as Byte
  }

  /** Four values give three bytes; of the values left over only whole bytes count. */
  function GroupBytes(v: seq<Byte>): seq<Byte> {
    if |v| < 2 then []
    else if |v| == 2 then [ByteOf(Group4(v[0], v[1], 0, 0), 16)]
    else if |v| == 3 then [ByteOf(Group4(v[0], v[1], v[2], 0), 16), ByteOf(Group4(v[0], v[1], v[2], 0), 8)]
    else
      var g := Group4(v[0], v[1], v[2], v[3]);
      [ByteOf(g, 16), ByteOf(g, 8), ByteOf(g, 0)] + GroupBytes(v[4..])
  }

  predicate AllPadding(t: seq<Byte>) {
    forall i :: 0 <= i < |t| ==> t[i] == PAD
  }

  function Decoded(t: seq<Byte>, a: Alphabet, behavior: Behavior): Result {
    var p := FirstPad(t);
    var v := Values(a, t[..p]);
    if v.None? || (behavior == Moderate && p < |t| && !AllPadding(t[p + 1..])) then Invalid
    else Ok(GroupBytes(v.value))
  }

  /** Bits of the last value that are not yet written, after `count` values. */
  function PendingBits(count: nat): (bits: bv8)
    ensures bits == 0 || 2 <= bits <= 6
  {
    if count == 0 then 0 else if count == 1 then 6 else if count == 2 then 4 else if count == 3 then 2 else PendingBits(count - 4)
  }

  /** The byte made of the pending bits of the last value and the first bits of the next one. */
  function Joined(last: Byte, part: Byte, bits: bv8): Byte
    requires 2 <= bits <= 6
  {
    (last << (8 - bits)) | (part >> (bits - 2))
  }

  lemma FirstByte(v0: Byte, v1: Byte, v2: Byte, v3: Byte)
    requires v0 < 64 && v1 < 64 && v2 < 64 && v3 < 64
    ensures Joined(v0, v1, 6) == ByteOf(Group4(v0, v1, v2, v3), 16)
  {
  }

  lemma SecondByte(v0: Byte, v1: Byte, v2: Byte, v3: Byte)
    requires v0 < 64 && v1 < 64 && v2 < 64 && v3 < 64
    ensures Joined(v1, v2, 4) == ByteOf(Group4(v0, v1, v2, v3), 8)
  {
  }

  lemma ThirdByte(v0: Byte, v1: Byte, v2: Byte, v3: Byte)
    requires v0 < 64 && v1 < 64 && v2 < 64 && v3 < 64
    ensures Joined(v2, v3, 2) == ByteOf(Group4(v0, v1, v2, v3), 0)
  {
  }

  predicate SixBits(v: seq<Byte>) {
    forall i :: 0 <= i < |v| ==> v[i] < 64
  }

  /** One more value adds at most one byte. */
  lemma {:induction false} GroupBytesNext(v: seq<Byte>, part: Byte)
    requires SixBits(v) && part < 64
    ensures GroupBytes(v + [part])
            == if PendingBits(|v|) == 0 then GroupBytes(v) else GroupBytes(v) + [Joined(v[|v| - 1], part, PendingBits(|v|))]
    ensures PendingBits(|v|) != 0 ==> v != []
    ensures PendingBits(|v| + 1) == if PendingBits(|v|) == 0 then 6 else PendingBits(|v|) - 2
    decreases v
  {
    hide Joined, ByteOf, Group4;
    if |v| >= 4 {
      assert (v + [part])[4..] == v[4..] + [part];
      GroupBytesNext(v[4..], part);
    } else {
      NextInFirstGroup(v, part);
    }
  }

  lemma NextInFirstGroup(v: seq<Byte>, part: Byte)
    requires SixBits(v) && part < 64 && |v| < 4
    ensures GroupBytes(v + [part])
            == if |v| == 0 then [] else GroupBytes(v) + [Joined(v[|v| - 1], part, PendingBits(|v|))]
  {
    hide Joined, ByteOf, Group4;
    if |v| == 1 {
      FirstByte(v[0], part, 0, 0);
    } else if |v| == 2 {
      FirstByte(v[0], v[1], 0, 0);
      FirstByte(v[0], v[1], part, 0);
      SecondByte(v[0], v[1], part, 0);
    } else if |v| == 3 {
      FirstByte(v[0], v[1], v[2], 0);
      FirstByte(v[0], v[1], v[2], part);
      SecondByte(v[0], v[1], v[2], 0);
      SecondByte(v[0], v[1], v[2], part);
      ThirdByte(v[0], v[1], v[2], part);
      assert GroupBytes((v + [part])[4..]) == [];
    }
  }

  lemma {:induction false} GroupBytesSize(v: seq<Byte>)
    ensures |GroupBytes(v)| == |v| * 3 / 4
    decreases v
  {
    hide Group4, ByteOf;
    if |v| >= 4 {
      GroupBytesSize(v[4..]);
    }
  }

  function Prepended(v: seq<Byte>, rest: Option<seq<Byte>>): Option<seq<Byte>> {
    if rest.None? then None else Some(v + rest.value)
  }

  lemma PrependedTwice(v: seq<Byte>, w: seq<Byte>, rest: Option<seq<Byte>>)
    ensures Prepended(v, Prepended(w, rest)) == Prepended(v + w, rest)
  {
    if rest.Some? {
      assert v + (w + rest.value) == (v + w) + rest.value;
    }
  }

  /** Decodes the letters up to the first padding character, collecting bits until a byte is complete. */
  method DecodeLetters(input: seq<Byte>, alphabet: Alphabet) returns (ok: bool, out: seq<Byte>, i: nat)
    ensures ok <==> Values(alphabet, input[..FirstPad(input)]).Some?
    ensures ok ==> i == FirstPad(input) && out == GroupBytes(Values(alphabet, input[..FirstPad(input)]).value)
  {
    hide Joined, ValueOf, GroupBytes, Values;
    ghost var pad := FirstPad(input);
    ghost var values: seq<Byte> := [];
    out := [];
    var last: Byte, bits: bv8, alpha := 0, 0, alphabet;
    i := 0;
    ValuesOfNothing(alpha, input, pad);
    while i < |input| && input[i] != PAD
      invariant 0 <= i <= pad && |values| == i && SixBits(values)
      invariant Values(alphabet, input[..pad]) == Prepended(values, Values(alpha, input[i..pad]))
      invariant out == GroupBytes(values) && bits == PendingBits(i) && (i > 0 ==> last == values[i - 1])
    {
      ValuesNext(alpha, input, i, pad);
      var symbol := ValueOf(alpha, input[i]);
      if symbol.NoSymbol? {
        return false, out, i;
      }
      GroupBytesNext(values, symbol.v);
      PrependedTwice(values, [symbol.v], Values(symbol.now, input[i + 1..pad]));
      if bits + 6 >= 8 {
        out := out + [Joined(last, symbol.v, bits)];
        bits := bits - 2;
      } else {
        bits := bits + 6;
      }
      last, alpha := symbol.v, symbol.now;
      values := values + [symbol.v];
      i := i + 1;
    }
    ValuesOfNothing(alpha, input, pad);
    assert values + [] == values;
    ok := true;
  }

  /** After the letters only padding may follow, unless decoding is loose. */
  method CheckPadding(input: seq<Byte>, from: nat, behavior: Behavior) returns (ok: bool)
    requires from <= |input|
    ensures ok <==> behavior == Loose || AllPadding(input[from..])
  {
    ok := true;
    if behavior != Loose {
      var i := from;
      while i < |input|
        invariant from <= i <= |input|
        invariant forall k :: from <= k < i ==> input[k] == PAD
      {
        if input[i] != PAD {
          assert input[from..][i - from] != PAD;
          return false;
        }
        i := i + 1;
      }
    }
  }

  method Decode(input: seq<Byte>, alphabet: Alphabet, behavior: Behavior) returns (r: Result)
    ensures r == Decoded(input, alphabet, behavior)
    ensures r.Ok? ==> |r.bytes| <= MaxDecodeSize(|input|)
  {
    var ok, out, i := DecodeLetters(input, alphabet);
    if !ok {
      return Invalid;
    }
    GroupBytesSize(Values(alphabet, input[..FirstPad(input)]).value);
    ok := CheckPadding(input, if i < |input| then i + 1 else i, behavior);
    r := if ok then Ok(out) else Invalid;
  }

  datatype InPlace = Shrunk(size: nat) | Failed

  predicate SameFrom(now: seq<Byte>, before: seq<Byte>, i: nat) {
    |now| == |before| && forall k :: i <= k < |now| ==> now[k] == before[k]
  }

  /** A byte that is still to be read is the original one. */
  lemma SameAt(now: seq<Byte>, before: seq<Byte>, written: nat, i: nat, size: nat)
    requires SameFrom(now, before, written) && written <= i < size <= |now|
    ensures now[i] == before[i] == before[..size][i]
  {
  }

  /** Writing a byte leaves the rest as it is. */
  lemma SameAfterWrite(now: seq<Byte>, before: seq<Byte>, written: nat, b: Byte)
    requires SameFrom(now, before, written) && written < |now|
    ensures SameFrom(now[written := b], before, written + 1) && now[written := b][..written + 1] == now[..written] + [b]
  {
  }

  /** Decodes the letters at the beginning of a buffer into the buffer itself: writes never pass reads. */
  method DecodeLettersInPlace(buffer: array<Byte>, size: nat, alphabet: Alphabet) returns (ok: bool, written: nat, i: nat)
    requires size <= buffer.Length
    modifies buffer
    ensures var input := old(buffer[..size]);
            var values := Values(alphabet, input[..FirstPad(input)]);
            && written <= i <= size && SameFrom(buffer[..], old(buffer[..]), written)
            && (ok <==> values.Some?)
            && (ok ==> i == FirstPad(input) && buffer[..written] == GroupBytes(values.value))
  {
    hide Joined, ValueOf, GroupBytes, Values, PendingBits, SameFrom;
    SameStart(buffer[..]);
    ghost var start, input := buffer[..], buffer[..size];
    ghost var pad := FirstPad(input);
    ghost var values: seq<Byte> := [];
    var last: Byte, bits: bv8, alpha := 0, 0, alphabet;
    i, written := 0, 0;
    ValuesOfNothing(alpha, input, pad);
    while i < size && buffer[i] != PAD
      invariant 0 <= written <= i <= pad && |values| == i && SixBits(values)
      invariant SameFrom(buffer[..], start, written)
      invariant Values(alphabet, input[..pad]) == Prepended(values, Values(alpha, input[i..pad]))
      invariant buffer[..written] == GroupBytes(values) && bits == PendingBits(i) && (i > 0 ==> last == values[i - 1])
    {
      SameAt(buffer[..], start, written, i, size);
      ValuesNext(alpha, input, i, pad);
      var symbol := ValueOf(alpha, buffer[i]);
      if symbol.NoSymbol? {
        return false, written, i;
      }
      GroupBytesNext(values, symbol.v);
      PrependedTwice(values, [symbol.v], Values(symbol.now, input[i + 1..pad]));
      if bits + 6 >= 8 {
        ghost var now := buffer[..];
        buffer[written] := Joined(last, symbol.v, bits);
        SameAfterWrite(now, start, written, Joined(last, symbol.v, bits));
        assert buffer[..] == now[written := Joined(last, symbol.v, bits)];
        written := written + 1;
        bits := bits - 2;
      } else {
        bits := bits + 6;
      }
      last, alpha := symbol.v, symbol.now;
      values := values + [symbol.v];
      i := i + 1;
    }
    if i < size {
      SameAt(buffer[..], start, written, i, size);
    }
    ValuesOfNothing(alpha, input, pad);
    assert values + [] == values;
    ok := true;
  }

  lemma SameStart(buffer: seq<Byte>)
    ensures SameFrom(buffer, buffer, 0)
  {
  }

  lemma SameRest(now: seq<Byte>, before: seq<Byte>, written: nat, from: nat, size: nat)
    requires SameFrom(now, before, written) && written <= from <= size <= |now|
    ensures now[..size][from..] == before[..size][from..] && now[written..] == before[written..]
    ensures now[size..] == before[size..]
  {
  }

  /** Decoding in place leaves at the beginning of the buffer what decoding elsewhere returns. */
  method DecodeInPlace(buffer: array<Byte>, size: nat, alphabet: Alphabet, behavior: Behavior) returns (r: InPlace)
    requires size <= buffer.Length
    modifies buffer
    ensures match Decoded(old(buffer[..size]), alphabet, behavior)
            case Ok(bytes) => r == Shrunk(|bytes|) && |bytes| <= size && buffer[..|bytes|] == bytes
                              && buffer[|bytes|..] == old(buffer[|bytes|..])
            case Invalid => r == Failed && buffer[size..] == old(buffer[size..])
  {
    hide Values, GroupBytes, SameFrom;
    ghost var start := buffer[..];
    assert start[..size] == buffer[..size];
    var ok, written, i := DecodeLettersInPlace(buffer, size, alphabet);
    var from := if i < size then i + 1 else i;
    SameRest(buffer[..], start, written, from, size);
    if !ok {
      return Failed;
    }
    assert buffer[..][..size] == buffer[..size];
    ok := CheckPadding(buffer[..size], from, behavior);
    r := if ok then Shrunk(written) else Failed;
  }

  lemma ValuesOfNothing(a: Alphabet, input: seq<Byte>, pad: nat)
    requires pad <= |input|
    ensures Values(a, input[pad..pad]) == Some([]) && GroupBytes([]) == [] && PendingBits(0) == 0
    ensures input[0..pad] == input[..pad] && Prepended([], Values(a, input[..pad])) == Values(a, input[..pad])
  {
    var v := Values(a, input[..pad]);
    assert v.Some? ==> [] + v.value == v.value;
  }

  lemma ValuesNext(a: Alphabet, input: seq<Byte>, i: nat, pad: nat)
    requires i < pad <= |input|
    ensures Values(a, input[i..pad])
            == match ValueOf(a, input[i])
               case NoSymbol => None
               case Value(v, now) => Prepended([v], Values(now, input[i + 1..pad]))
  {
  }

  // ----- round trip

  /** The six-bit values of bytes. */
  function Sixths(bytes: seq<Byte>): (v: seq<Byte>)
    ensures SixBits(v)
  {
    if |bytes| == 0 then []
    else if |bytes| == 1 then
      var g := Group(bytes[0], 0, 0);
      [Sixth(g, 18), Sixth(g, 12)]
    else if |bytes| == 2 then
      var g := Group(bytes[0], bytes[1], 0);
      [Sixth(g, 18), Sixth(g, 12), Sixth(g, 6)]
    else
      var g := Group(bytes[0], bytes[1], bytes[2]);
      [Sixth(g, 18), Sixth(g, 12), Sixth(g, 6), Sixth(g, 0)] + Sixths(bytes[3..])
  }

  function LettersOf(v: seq<Byte>, a: Alphabet): (letters: seq<Byte>)
    requires SixBits(v)
    ensures |letters| == |v|
  {
    if v == [] then [] else [Letter(v[0], a)] + LettersOf(v[1..], a)
  }

  /** The padding after the letters of `n` bytes. */
  function Padding(n: nat): seq<Byte> {
    if n == 0 then [] else if n == 1 then [PAD, PAD] else if n == 2 then [PAD] else Padding(n - 3)
  }

  lemma {:induction false} LettersConcat(v: seq<Byte>, w: seq<Byte>, a: Alphabet)
    requires SixBits(v) && SixBits(w)
    ensures SixBits(v + w) && LettersOf(v + w, a) == LettersOf(v, a) + LettersOf(w, a)
    decreases v
  {
    hide Letter;
    if v == [] {
      assert v + w == w;
    } else {
      assert (v + w)[1..] == v[1..] + w;
      LettersConcat(v[1..], w, a);
    }
  }

  lemma LettersOfTwo(v0: Byte, v1: Byte, a: Alphabet)
    requires v0 < 64 && v1 < 64
    ensures LettersOf([v0, v1], a) == [Letter(v0, a), Letter(v1, a)]
  {
  }

  lemma LettersOfThree(v0: Byte, v1: Byte, v2: Byte, a: Alphabet)
    requires v0 < 64 && v1 < 64 && v2 < 64
    ensures LettersOf([v0, v1, v2], a) == [Letter(v0, a), Letter(v1, a), Letter(v2, a)]
  {
    hide Letter;
    assert [v0, v1, v2][1..] == [v1, v2];
    LettersOfTwo(v1, v2, a);
  }

  lemma LettersOfFour(v0: Byte, v1: Byte, v2: Byte, v3: Byte, a: Alphabet)
    requires v0 < 64 && v1 < 64 && v2 < 64 && v3 < 64
    ensures LettersOf([v0, v1, v2, v3], a) == [Letter(v0, a), Letter(v1, a), Letter(v2, a), Letter(v3, a)]
  {
    hide Letter;
    assert [v0, v1, v2, v3][1..] == [v1, v2, v3];
    LettersOfThree(v1, v2, v3, a);
  }

  lemma LettersOfGroup(group: bv24, a: Alphabet)
    ensures LettersOf([Sixth(group, 18), Sixth(group, 12)], a) == Letters(group, 2, a)
    ensures LettersOf([Sixth(group, 18), Sixth(group, 12), Sixth(group, 6)], a) == Letters(group, 3, a)
    ensures LettersOf([Sixth(group, 18), Sixth(group, 12), Sixth(group, 6), Sixth(group, 0)], a) == Letters(group, 4, a)
  {
    hide Letter, Sixth, LettersOf;
    LettersOfTwo(Sixth(group, 18), Sixth(group, 12), a);
    LettersOfThree(Sixth(group, 18), Sixth(group, 12), Sixth(group, 6), a);
    LettersOfFour(Sixth(group, 18), Sixth(group, 12), Sixth(group, 6), Sixth(group, 0), a);
  }

  lemma PrependLetters(four: seq<Byte>, rest: seq<Byte>, a: Alphabet, padding: seq<Byte>)
    requires SixBits(four) && SixBits(rest)
    ensures LettersOf(four, a) + (LettersOf(rest, a) + padding) == LettersOf(four + rest, a) + padding
  {
    hide LettersOf;
    LettersConcat(four, rest, a);
  }

  /** The encoding is the letters of the six-bit values, and padding. */
  lemma {:induction false} EncodedLetters(bytes: seq<Byte>, a: Alphabet)
    ensures Encoded(bytes, a) == LettersOf(Sixths(bytes), a) + Padding(|bytes|)
    decreases bytes
  {
    hide Letters, LettersOf, Group, Sixth;
    if |bytes| == 0 {
      LettersOfNothing(a);
    } else if |bytes| == 1 {
      LettersOfGroup(Group(bytes[0], 0, 0), a);
    } else if |bytes| == 2 {
      LettersOfGroup(Group(bytes[0], bytes[1], 0), a);
    } else {
      var g := Group(bytes[0], bytes[1], bytes[2]);
      LettersOfGroup(g, a);
      EncodedLetters(bytes[3..], a);
      PrependLetters([Sixth(g, 18), Sixth(g, 12), Sixth(g, 6), Sixth(g, 0)], Sixths(bytes[3..]), a, Padding(|bytes| - 3));
    }
  }

  lemma LettersOfNothing(a: Alphabet)
    ensures LettersOf([], a) == []
  {
  }

  lemma FirstByteBack(b0: Byte, b1: Byte, b2: Byte, rest: Byte, last: Byte)
    requires rest < 64 && last < 64
    ensures var g := Group(b0, b1, b2);
            ByteOf(Group4(Sixth(g, 18), Sixth(g, 12), rest, last), 16) == b0
  {
  }

  lemma SecondByteBack(b0: Byte, b1: Byte, b2: Byte, last: Byte)
    requires last < 64
    ensures var g := Group(b0, b1, b2);
            ByteOf(Group4(Sixth(g, 18), Sixth(g, 12), Sixth(g, 6), last), 8) == b1
  {
  }

  lemma ThirdByteBack(b0: Byte, b1: Byte, b2: Byte)
    ensures var g := Group(b0, b1, b2);
            ByteOf(Group4(Sixth(g, 18), Sixth(g, 12), Sixth(g, 6), Sixth(g, 0)), 0) == b2
  {
  }

  lemma {:induction false} SixthsRoundTrip(bytes: seq<Byte>)
    ensures GroupBytes(Sixths(bytes)) == bytes
    decreases bytes
  {
    hide Group, Sixth, Group4, ByteOf;
    if |bytes| == 1 {
      FirstByteBack(bytes[0], 0, 0, 0, 0);
    } else if |bytes| == 2 {
      FirstByteBack(bytes[0], bytes[1], 0, Sixth(Group(bytes[0], bytes[1], 0), 6), 0);
      SecondByteBack(bytes[0], bytes[1], 0, 0);
    } else if |bytes| > 2 {
      var g := Group(bytes[0], bytes[1], bytes[2]);
      FirstByteBack(bytes[0], bytes[1], bytes[2], Sixth(g, 6), Sixth(g, 0));
      SecondByteBack(bytes[0], bytes[1], bytes[2], Sixth(g, 0));
      ThirdByteBack(bytes[0], bytes[1], bytes[2]);
      assert Sixths(bytes)[4..] == Sixths(bytes[3..]);
      SixthsRoundTrip(bytes[3..]);
      assert bytes == [bytes[0], bytes[1], bytes[2]] + bytes[3..];
    }
  }

  /** Letters have their values, and none is the padding character. */
  lemma {:induction false} ValuesOfLetters(v: seq<Byte>, a: Alphabet, known: Alphabet)
    requires SixBits(v) && a != Auto && (known == Auto || known == a)
    ensures Values(known, LettersOf(v, a)) == Some(v)
    ensures forall i :: 0 <= i < |v| ==> LettersOf(v, a)[i] != PAD
    decreases v
  {
    hide ValueOf, Letter;
    if v != [] {
      ValueOfLetter(v[0], a);
      var now := ValueOf(known, Letter(v[0], a)).now;
      ValuesOfLetters(v[1..], a, now);
      assert LettersOf(v, a)[0] == Letter(v[0], a) && LettersOf(v, a)[1..] == LettersOf(v[1..], a);
      assert Values(now, LettersOf(v[1..], a)) == Some(v[1..]);
      assert [v[0]] + v[1..] == v;
    }
  }

  lemma {:induction false} PaddingShape(n: nat)
    ensures AllPadding(Padding(n))
  {
    if n > 2 {
      PaddingShape(n - 3);
    }
  }

  lemma {:induction false} FirstPadAfter(letters: seq<Byte>, padding: seq<Byte>)
    requires (forall i :: 0 <= i < |letters| ==> letters[i] != PAD) && AllPadding(padding)
    ensures FirstPad(letters + padding) == |letters|
    decreases letters
  {
    if letters == [] {
      assert letters + padding == padding;
    } else {
      assert (letters + padding)[1..] == letters[1..] + padding;
      FirstPadAfter(letters[1..], padding);
    }
  }

  lemma DecodeLettersOf(bytes: seq<Byte>, a: Alphabet, known: Alphabet, behavior: Behavior)
    requires a != Auto && (known == Auto || known == a)
    ensures Decoded(Encoded(bytes, a), known, behavior) == Ok(bytes)
  {
    hide Encoded, Sixths, LettersOf, Values, GroupBytes, FirstPad;
    var letters, padding := LettersOf(Sixths(bytes), a), Padding(|bytes|);
    EncodedLetters(bytes, a);
    PaddingShape(|bytes|);
    ValuesOfLetters(Sixths(bytes), a, known);
    FirstPadAfter(letters, padding);
    SixthsRoundTrip(bytes);
    var t := letters + padding;
    assert t[..|letters|] == letters;
    if |letters| < |t| {
      assert t[|letters| + 1..] == padding[1..];
    }
  }

  /** The alphabet of an encoder that was asked to detect one is the standard one. */
  lemma {:induction false} AutoEncodesStandard(bytes: seq<Byte>)
    ensures Encoded(bytes, Auto) == Encoded(bytes, Standard)
    decreases bytes
  {
    hide Group;
    if |bytes| > 2 {
      AutoEncodesStandard(bytes[3..]);
    }
  }

  /** Decoding what was encoded gives it back, with the alphabet that was used or with one that is detected. */
  lemma DecodeEncoded(bytes: seq<Byte>, a: Alphabet, known: Alphabet, behavior: Behavior)
    requires known == Auto || known == if a == Auto then Standard else a
    ensures Decoded(Encoded(bytes, a), known, behavior) == Ok(bytes)
  {
    hide Encoded, Decoded;
    if a == Auto {
      AutoEncodesStandard(bytes);
    }
    DecodeLettersOf(bytes, if a == Auto then Standard else a, known, behavior);
  }

  lemma {:induction false} AutoValues(t: seq<Byte>)
    ensures Values(Auto, t) == if Values(Standard, t).Some? then Values(Standard, t) else Values(UrlSafe, t)
    decreases t
  {
    if t != [] {
      AutoValues(t[1..]);
    }
  }

  /** Detecting the alphabet succeeds exactly when one of the alphabets does, with its result. */
  lemma AutoDecodesEither(t: seq<Byte>, behavior: Behavior)
    ensures var standard, url := Decoded(t, Standard, behavior), Decoded(t, UrlSafe, behavior);
            Decoded(t, Auto, behavior) == if standard.Ok? then standard else url
  {
    hide Values, GroupBytes, FirstPad;
    AutoValues(t[..FirstPad(t)]);
  }

  lemma {:induction false} ValuesIff(t: seq<Byte>, a: Alphabet)
    requires a != Auto
    ensures Values(a, t).Some? <==> forall i :: 0 <= i < |t| ==> InTable(a, t[i])
    decreases t
  {
    hide ValueOf, InTable;
    if t != [] {
      ValueIff(a, t[0]);
      KeepsAlphabet(a, t[0]);
      ValuesIff(t[1..], a);
      assert forall i :: 1 <= i < |t| ==> t[i] == t[1..][i - 1];
    }
  }

  lemma KeepsAlphabet(a: Alphabet, c: Byte)
    requires a != Auto
    ensures ValueOf(a, c).Value? ==> ValueOf(a, c).now == a
  {
  }

  /** The bytes in front of the first padding character are all letters of the table. */
  ghost predicate LettersIn(t: seq<Byte>, a: Alphabet) {
    forall i :: 0 <= i < |t| && (forall k :: 0 <= k <= i ==> t[k] != PAD) ==> InTable(a, t[i])
  }

  lemma LettersBeforePad(t: seq<Byte>, a: Alphabet)
    requires a != Auto
    ensures LettersIn(t, a) <==> Values(a, t[..FirstPad(t)]).Some?
  {
    hide Values, InTable, FirstPad;
    var p := FirstPad(t);
    ValuesIff(t[..p], a);
    if LettersIn(t, a) {
      forall i | 0 <= i < p
        ensures InTable(a, t[..p][i])
      {
        assert forall k :: 0 <= k <= i ==> t[k] != PAD;
        assert t[..p][i] == t[i];
      }
    } else {
      var i :| 0 <= i < |t| && (forall k :: 0 <= k <= i ==> t[k] != PAD) && !InTable(a, t[i]);
      assert i < p;
      assert t[..p][i] == t[i];
    }
  }

  lemma PaddingRest(t: seq<Byte>)
    ensures var p := FirstPad(t);
            (forall i, j :: 0 <= i < j < |t| && t[i] == PAD ==> t[j] == PAD) <==> p < |t| ==> AllPadding(t[p + 1..])
  {
    hide FirstPad;
    var p := FirstPad(t);
    if p < |t| && AllPadding(t[p + 1..]) {
      forall i, j | 0 <= i < j < |t| && t[i] == PAD
        ensures t[j] == PAD
      {
        assert t[j] == t[p + 1..][j - p - 1];
      }
    }
  }

  /**
    Decoding succeeds exactly if the bytes in front of the padding are all letters of one alphabet that is allowed and,
    unless decoding is loose, nothing but padding follows.
   */
  lemma DecodesIff(t: seq<Byte>, a: Alphabet, behavior: Behavior)
    ensures Decoded(t, a, behavior).Ok?
            <==> && ((a != UrlSafe && LettersIn(t, Standard)) || (a != Standard && LettersIn(t, UrlSafe)))
                 && (behavior == Loose || forall i, j :: 0 <= i < j < |t| && t[i] == PAD ==> t[j] == PAD)
  {
    hide Values, GroupBytes, FirstPad, LettersIn, AllPadding;
    AutoValues(t[..FirstPad(t)]);
    LettersBeforePad(t, Standard);
    LettersBeforePad(t, UrlSafe);
    PaddingRest(t);
  }

  /** Texts that decode in both alphabets decode to the same bytes. */
  lemma {:induction false} AlphabetsAgree(t: seq<Byte>)
    requires Values(Standard, t).Some? && Values(UrlSafe, t).Some?
    ensures Values(Standard, t) == Values(UrlSafe, t)
    decreases t
  {
    if t != [] {
      AlphabetsAgree(t[1..]);
    }
  }
}
