/** Reading JSON (section 2 of RFC 8259), and that documents are read back as what they mean. */
module JsonReader {
  import opened Basics
  import opened JsonText

  /** A JSON value; numbers and literals are kept as they are written. */
  datatype Json = Atom(text: string) | Text(text: string) | List(items: seq<Json>) | Object(members: seq<Member>)

  datatype Member = Member(name: string, value: Json)

  // ----- the reader

  predicate IsSpace(c: char) {
    c == ' ' || c == '\t' || c == '\n' || c == '\r'
  }

  function Skip(s: string): (t: string)
    ensures |t| <= |s|
  {
    if s != [] && IsSpace(s[0]) then Skip(s[1..]) else s
  }

  predicate AtomChar(c: char) {
    'a' <= c <= 'z' || 'A' <= c <= 'Z' || '0' <= c <= '9' || c == '+' || c == '-' || c == '.'
  }

  function AtomEnd(s: string): (n: nat)
    ensures n <= |s| && (forall i :: 0 <= i < n ==> AtomChar(s[i])) && (n < |s| ==> !AtomChar(s[n]))
  {
    if s != [] && AtomChar(s[0]) then 1 + AtomEnd(s[1..]) else 0
  }

  datatype Read<T> = Read(value: T, rest: string)

  function ReadValue(s: string): (r: Option<Read<Json>>)
    ensures r.Some? ==> |r.value.rest| < |s|
    decreases |s|, 0
  {
    var t := Skip(s);
    if t == [] then None
    else if t[0] == '\"' then
      var text := ParseString(t);
      if text.None? then None else Some(Read(Text(text.value.text), text.value.rest))
    else if t[0] == '[' then
      var inner := Skip(t[1..]);
      if inner != [] && inner[0] == ']' then Some(Read(List([]), inner[1..]))
      else
        var items := ReadItems(t[1..]);
        if items.None? then None else Some(Read(List(items.value.value), items.value.rest))
    else if t[0] == '{' then
      var inner := Skip(t[1..]);
      if inner != [] && inner[0] == '}' then Some(Read(Object([]), inner[1..]))
      else
        var members := ReadMembers(t[1..]);
        if members.None? then None else Some(Read(Object(members.value.value), members.value.rest))
    else
      var n := AtomEnd(t);
      if n == 0 then None else Some(Read(Atom(t[..n]), t[n..]))
  }

  /** One or more items, and the closing bracket. */
  function ReadItems(s: string): (r: Option<Read<seq<Json>>>)
    ensures r.Some? ==> |r.value.rest| < |s|
    decreases |s|, 1
  {
    var first := ReadValue(s);
    if first.None? then None
    else
      var item, after := first.value.value, Skip(first.value.rest);
      if after != [] && after[0] == ']' then Some(Read([item], after[1..]))
      else if after != [] && after[0] == ',' then
        var more := ReadItems(after[1..]);
        if more.None? then None else Some(Read([item] + more.value.value, more.value.rest))
      else None
  }

  /** One or more members, and the closing brace. */
  function ReadMembers(s: string): (r: Option<Read<seq<Member>>>)
    ensures r.Some? ==> |r.value.rest| < |s|
    decreases |s|, 1
  {
    var name := ParseString(Skip(s));
    if name.None? then None
    else
      var colon := Skip(name.value.rest);
      if colon == [] || colon[0] != ':' then None
      else
        var value := ReadValue(colon[1..]);
        if value.None? then None
        else
          var member, after := Member(name.value.text, value.value.value), Skip(value.value.rest);
          if after != [] && after[0] == '}' then Some(Read([member], after[1..]))
          else if after != [] && after[0] == ',' then
            var more := ReadMembers(after[1..]);
            if more.None? then None else Some(Read([member] + more.value.value, more.value.rest))
          else None
  }

  // ----- documents

  /** JSON as it is written: strings and names with the insides of their quotes. */
  datatype Doc = Word(text: string) | Str(inside: string) | Arr(docs: seq<Doc>) | Obj(fields: seq<Field>)

  datatype Field = Field(key: string, value: Doc)

  ghost predicate Proper(d: Doc) {
    match d
    case Word(text) => text != [] && forall i :: 0 <= i < |text| ==> AtomChar(text[i])
    case Str(inside) => Unescape(inside).Some?
    case Arr(docs) => forall x :: x in docs ==> Proper(x)
    case Obj(fields) => forall f :: f in fields ==> Unescape(f.key).Some? && Proper(f.value)
  }

  ghost function Meaning(d: Doc): Json
    requires Proper(d)
  {
    match d
    case Word(text) => Atom(text)
    case Str(inside) => Text(Unescape(inside).value)
    case Arr(docs) => List(Meanings(docs))
    case Obj(fields) => Object(FieldMeanings(fields))
  }

  ghost function Meanings(docs: seq<Doc>): (items: seq<Json>)
    requires forall x :: x in docs ==> Proper(x)
    ensures |items| == |docs|
  {
    if docs == [] then [] else [Meaning(docs[0])] + Meanings(docs[1..])
  }

  ghost function FieldMeanings(fields: seq<Field>): (members: seq<Member>)
    requires forall f :: f in fields ==> Unescape(f.key).Some? && Proper(f.value)
    ensures |members| == |fields|
  {
    if fields == [] then []
    else [Member(Unescape(fields[0].key).value, Meaning(fields[0].value))] + FieldMeanings(fields[1..])
  }

  /** The text of a document; `gap` follows commas and colons. */
  function Print(d: Doc, gap: string): string {
    match d
    case Word(text) => text
    case Str(inside) => "\"" + inside + "\""
    case Arr(docs) => "[" + (PrintDocs(docs, gap) + "]")
    case Obj(fields) => "{" + (PrintFields(fields, gap) + "}")
  }

  function PrintDocs(docs: seq<Doc>, gap: string): string {
    if docs == [] then []
    else if |docs| == 1 then Print(docs[0], gap)
    else Print(docs[0], gap) + ("," + (gap + PrintDocs(docs[1..], gap)))
  }

  function PrintField(f: Field, gap: string): string {
    "\"" + f.key + "\"" + (":" + (gap + Print(f.value, gap)))
  }

  function PrintFields(fields: seq<Field>, gap: string): string {
    if fields == [] then []
    else if |fields| == 1 then PrintField(fields[0], gap)
    else PrintField(fields[0], gap) + ("," + (gap + PrintFields(fields[1..], gap)))
  }

  // ----- reading strings

  /** The inside of a string has no quote of its own. */
  lemma {:induction false} StringEndInside(inside: string, rest: string, all: string)
    requires Unescape(inside).Some? && all == inside + ("\"" + rest)
    ensures StringEnd(all) == Some(|inside|)
    decreases |inside|
  {
    if inside == [] {
    } else if inside[0] == '\\' {
      if inside[1] == 'u' {
        StringEndInside(inside[6..], rest, inside[6..] + ("\"" + rest));
        StringEndUnicode(inside, rest, all);
      } else {
        assert all[2..] == inside[2..] + ("\"" + rest);
        StringEndInside(inside[2..], rest, all[2..]);
      }
    } else {
      assert all[1..] == inside[1..] + ("\"" + rest);
      StringEndInside(inside[1..], rest, all[1..]);
    }
  }

  lemma StringEndUnicode(inside: string, rest: string, all: string)
    requires |inside| >= 6 && inside[0] == '\\' && Hex4(inside[2..]).Some? && all == inside + ("\"" + rest)
    requires StringEnd(inside[6..] + ("\"" + rest)) == Some(|inside| - 6)
    ensures StringEnd(all) == Some(|inside|)
  {
    hide StringEnd, Hex4;
    var more := inside[6..] + ("\"" + rest);
    assert inside == inside[..6] + inside[6..];
    assert all == inside[..6] + more;
    HexPlain(inside);
    SkipUnicode(inside[..6], more, all);
  }

  lemma HexPlain(inside: string)
    requires |inside| >= 6 && Hex4(inside[2..]).Some?
    ensures forall k :: 2 <= k < 6 ==> inside[..6][k] != '\"' && inside[..6][k] != '\\'
  {
    assert forall k :: 0 <= k < 4 ==> inside[2..][k] == inside[..6][k + 2];
    assert HexValue(inside[2..][0]).Some? && HexValue(inside[2..][1]).Some?;
    assert HexValue(inside[2..][2]).Some? && HexValue(inside[2..][3]).Some?;
  }

  lemma ParsesInside(inside: string, rest: string, all: string)
    requires Unescape(inside).Some? && all == "\"" + inside + ("\"" + rest)
    ensures ParseString(all) == Some(Parsed(Unescape(inside).value, rest))
  {
    hide StringEnd, Unescape;
    DropQuote(inside, rest, all);
    StringEndInside(inside, rest, all[1..]);
  }

  // ----- reading documents

  /** What comes after a value does not continue it. */
  predicate Follows(rest: string) {
    rest == [] || rest[0] == ',' || rest[0] == ']' || rest[0] == '}'
  }

  predicate Gap(gap: string) {
    gap == "" || gap == " "
  }

  lemma SkipGap(gap: string, s: string)
    requires Gap(gap) && (s == [] || !IsSpace(s[0]))
    ensures Skip(gap + s) == s && Skip(s) == s
  {
    if gap == "" {
      assert gap + s == s;
    } else {
      assert (gap + s)[1..] == s;
    }
  }

  lemma {:induction false} AtomEndIs(text: string, rest: string)
    requires (forall i :: 0 <= i < |text| ==> AtomChar(text[i])) && (rest == [] || !AtomChar(rest[0]))
    ensures AtomEnd(text + rest) == |text|
  {
    hide AtomChar;
    if text == [] {
      assert text + rest == rest;
    } else {
      assert (text + rest)[1..] == text[1..] + rest;
      AtomEndIs(text[1..], rest);
    }
  }

  /** Documents are not empty and begin with no space and no closing bracket. */
  lemma FirstChar(d: Doc, gap: string)
    requires Proper(d)
    ensures Print(d, gap) != [] && !IsSpace(Print(d, gap)[0]) && Print(d, gap)[0] != ']' && Print(d, gap)[0] != '}'
  {
    if d.Word? {
      assert AtomChar(d.text[0]);
    }
  }

  lemma ReadsWord(text: string, gap: string, rest: string)
    requires text != [] && (forall i :: 0 <= i < |text| ==> AtomChar(text[i])) && Follows(rest) && Gap(gap)
    ensures ReadValue(gap + (text + rest)) == Some(Read(Atom(text), rest))
  {
    AtomEndIs(text, rest);
    var s := text + rest;
    assert s[0] == text[0] && s[..|text|] == text && s[|text|..] == rest;
    assert AtomChar(s[0]);
    SkipGap(gap, s);
  }

  lemma ReadsStr(inside: string, gap: string, rest: string)
    requires Unescape(inside).Some? && Gap(gap)
    ensures ReadValue(gap + ("\"" + inside + "\"" + rest)) == Some(Read(Text(Unescape(inside).value), rest))
  {
    hide Unescape, ParseString;
    var s := "\"" + inside + "\"" + rest;
    assert s == "\"" + inside + ("\"" + rest);
    ParsesInside(inside, rest, s);
    SkipGap(gap, s);
  }

  /** What is printed for a document is read back as what it means, also after a gap. */
  lemma {:induction false} ReadsBack(d: Doc, gap: string, before: string, rest: string)
    requires Proper(d) && Gap(gap) && Gap(before) && Follows(rest)
    ensures ReadValue(before + (Print(d, gap) + rest)) == Some(Read(Meaning(d), rest))
    decreases d, 0
  {
    match d
    case Word(text) => ReadsWord(text, before, rest);
    case Str(inside) => ReadsStr(inside, before, rest);
    case Arr(docs) =>
      if docs != [] {
        ReadsDocs(docs, gap, "", rest);
      }
      ReadsArr(docs, gap, before, rest);
    case Obj(fields) =>
      if fields != [] {
        ReadsFields(fields, gap, "", rest);
      }
      ReadsObj(fields, gap, before, rest);
  }

  lemma ReadsArr(docs: seq<Doc>, gap: string, before: string, rest: string)
    requires (forall x :: x in docs ==> Proper(x)) && Gap(gap) && Gap(before)
    requires docs != [] ==> ReadItems("" + (PrintDocs(docs, gap) + ("]" + rest))) == Some(Read(Meanings(docs), rest))
    ensures ReadValue(before + (Print(Arr(docs), gap) + rest)) == Some(Read(List(Meanings(docs)), rest))
  {
    hide PrintDocs, ReadItems, Proper, Meanings, ParseString;
    var inner := PrintDocs(docs, gap) + ("]" + rest);
    var s := "[" + inner;
    Close("[", PrintDocs(docs, gap), "]", rest);
    SkipGap(before, s);
    assert s[1..] == inner && "" + inner == inner;
    DocsBegin(docs, gap);
    SkipGap("", inner);
    if docs == [] {
      assert inner == "]" + rest;
      assert inner[1..] == rest;
    }
  }

  lemma Close(open: string, inner: string, close: string, rest: string)
    ensures open + (inner + close) + rest == open + (inner + (close + rest))
  {
  }

  lemma DocsBegin(docs: seq<Doc>, gap: string)
    requires forall x :: x in docs ==> Proper(x)
    ensures if docs == [] then PrintDocs(docs, gap) == [] && Meanings(docs) == []
            else PrintDocs(docs, gap) != [] && !IsSpace(PrintDocs(docs, gap)[0]) && PrintDocs(docs, gap)[0] != ']'
  {
    hide Print, Proper;
    if docs != [] {
      FirstChar(docs[0], gap);
    }
  }

  lemma {:induction false} ReadsDocs(docs: seq<Doc>, gap: string, before: string, rest: string)
    requires docs != [] && (forall x :: x in docs ==> Proper(x)) && Gap(gap) && Gap(before)
    ensures ReadItems(before + (PrintDocs(docs, gap) + ("]" + rest))) == Some(Read(Meanings(docs), rest))
    decreases docs
  {
    hide Print, Proper, ReadValue, Meaning;
    var after := if |docs| == 1 then "]" + rest else "," + (gap + (PrintDocs(docs[1..], gap) + ("]" + rest)));
    ReadsBack(docs[0], gap, before, after);
    SkipGap("", after);
    if |docs| == 1 {
      assert after[1..] == rest;
      assert docs[1..] == [];
      assert Meanings(docs) == [Meaning(docs[0])];
    } else {
      Comma(Print(docs[0], gap), gap, PrintDocs(docs[1..], gap), "]" + rest);
      assert after[1..] == gap + (PrintDocs(docs[1..], gap) + ("]" + rest));
      ReadsDocs(docs[1..], gap, gap, rest);
    }
  }

  lemma Comma(a: string, gap: string, b: string, rest: string)
    ensures a + ("," + (gap + b)) + rest == a + ("," + (gap + (b + rest)))
  {
  }

  lemma ReadsObj(fields: seq<Field>, gap: string, before: string, rest: string)
    requires (forall f :: f in fields ==> Unescape(f.key).Some? && Proper(f.value)) && Gap(gap) && Gap(before)
    requires fields != [] ==> ReadMembers("" + (PrintFields(fields, gap) + ("}" + rest))) == Some(Read(FieldMeanings(fields), rest))
    ensures ReadValue(before + (Print(Obj(fields), gap) + rest)) == Some(Read(Object(FieldMeanings(fields)), rest))
  {
    hide PrintFields, ReadMembers, Proper, FieldMeanings, ParseString, Unescape;
    var inner := PrintFields(fields, gap) + ("}" + rest);
    var s := "{" + inner;
    Close("{", PrintFields(fields, gap), "}", rest);
    SkipGap(before, s);
    assert s[1..] == inner && "" + inner == inner;
    FieldsBegin(fields, gap);
    SkipGap("", inner);
    if fields == [] {
      assert inner == "}" + rest;
      assert inner[1..] == rest;
    }
  }

  lemma FieldsBegin(fields: seq<Field>, gap: string)
    requires forall f :: f in fields ==> Unescape(f.key).Some? && Proper(f.value)
    ensures if fields == [] then PrintFields(fields, gap) == [] && FieldMeanings(fields) == []
            else PrintFields(fields, gap) != [] && PrintFields(fields, gap)[0] == '\"'
  {
    hide Print, Proper, Unescape;
  }

  /** The name and the value of the first member are read. */
  lemma ReadsField(f: Field, gap: string, before: string, after: string)
    requires Unescape(f.key).Some? && Proper(f.value) && Gap(gap) && Gap(before)
    requires ReadValue(gap + (Print(f.value, gap) + after)) == Some(Read(Meaning(f.value), after))
    requires after != [] && !IsSpace(after[0])
    ensures var m, s := Member(Unescape(f.key).value, Meaning(f.value)), before + (PrintField(f, gap) + after);
            && (after[0] == '}' ==> ReadMembers(s) == Some(Read([m], after[1..])))
            && (after[0] == ',' && ReadMembers(after[1..]).Some? ==>
                  ReadMembers(s) == Some(Read([m] + ReadMembers(after[1..]).value.value, ReadMembers(after[1..]).value.rest)))
  {
    hide Unescape, ReadValue, Proper, Meaning, Print, ReadMembers;
    FieldThen(f.key, gap, Print(f.value, gap), after);
    ReadsEntry(f.key, gap + (Print(f.value, gap) + after), Meaning(f.value), before, after);
  }

  /** A name, a colon and what is read as a value. */
  lemma ReadsEntry(key: string, value: string, meaning: Json, before: string, after: string)
    requires Unescape(key).Some? && Gap(before) && ReadValue(value) == Some(Read(meaning, after))
    requires after != [] && !IsSpace(after[0])
    ensures var m, s := Member(Unescape(key).value, meaning), before + ("\"" + key + ("\"" + (":" + value)));
            && (after[0] == '}' ==> ReadMembers(s) == Some(Read([m], after[1..])))
            && (after[0] == ',' && ReadMembers(after[1..]).Some? ==>
                  ReadMembers(s) == Some(Read([m] + ReadMembers(after[1..]).value.value, ReadMembers(after[1..]).value.rest)))
  {
    hide Unescape, ParseString, ReadValue;
    var t := "\"" + key + ("\"" + (":" + value));
    SkipGap(before, t);
    ParsesInside(key, ":" + value, t);
    SkipGap("", ":" + value);
    assert (":" + value)[1..] == value;
    SkipGap("", after);
  }

  lemma FieldThen(key: string, gap: string, value: string, after: string)
    ensures "\"" + key + "\"" + (":" + (gap + value)) + after == "\"" + key + ("\"" + (":" + (gap + (value + after))))
  {
  }

  lemma {:induction false} ReadsFields(fields: seq<Field>, gap: string, before: string, rest: string)
    requires fields != [] && (forall f :: f in fields ==> Unescape(f.key).Some? && Proper(f.value)) && Gap(gap) && Gap(before)
    ensures ReadMembers(before + (PrintFields(fields, gap) + ("}" + rest))) == Some(Read(FieldMeanings(fields), rest))
    decreases fields
  {
    hide Print, Proper, ReadValue, Meaning, ReadMembers, Unescape, PrintField;
    var after := if |fields| == 1 then "}" + rest else "," + (gap + (PrintFields(fields[1..], gap) + ("}" + rest)));
    ReadsBack(fields[0].value, gap, gap, after);
    ReadsField(fields[0], gap, before, after);
    if |fields| == 1 {
      assert after[1..] == rest && fields[1..] == [];
      assert FieldMeanings(fields) == [Member(Unescape(fields[0].key).value, Meaning(fields[0].value))];
    } else {
      Comma(PrintField(fields[0], gap), gap, PrintFields(fields[1..], gap), "}" + rest);
      assert after[1..] == gap + (PrintFields(fields[1..], gap) + ("}" + rest));
      ReadsFields(fields[1..], gap, gap, rest);
    }
  }

  /** A whole document is read back as what it means. */
  lemma ReadsDocument(d: Doc, gap: string)
    requires Proper(d) && Gap(gap)
    ensures ReadValue(Print(d, gap)) == Some(Read(Meaning(d), []))
  {
    hide Print, Proper, ReadValue, Meaning;
    ReadsBack(d, gap, "", []);
    assert "" + (Print(d, gap) + []) == Print(d, gap);
  }
}
