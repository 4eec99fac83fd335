/** What is printed for a complete syntax tree of Gemma arguments is JSON for the value that the tree stands for. */
module GemmaJson {
  import opened Basics
  import opened JsonText
  import opened JsonReader
  import opened GemmaTree

  // ----- complete trees, as the grammar builds them

  ghost predicate Represents(node: Node, v: Json)
    decreases v, 1
  {
    node.rule == Value && node.text != [] && |node.children| == 1 && RepresentsPlain(node.children[0], v)
  }

  ghost predicate RepresentsPlain(node: Node, v: Json)
    decreases v, 0
  {
    && !node.partial && node.text != []
    && match v
       case Atom(text) => (node.rule == Number || node.rule == Bool || node.rule == Null) && node.text == text
                          && forall i :: 0 <= i < |text| ==> AtomChar(text[i])
       case Text(text) => node.rule == String && |node.children| == 1 && node.children[0].rule == StringContent
                          && node.children[0].text == text
       case List(items) => node.rule == Array && |node.children| == |items|
                           && forall i :: 0 <= i < |items| ==> Represents(node.children[i], items[i])
       case Object(members) => node.rule == Dict && |node.children| == |members|
                               && forall i :: 0 <= i < |members| ==> RepresentsMember(node.children[i], members[i])
  }

  ghost predicate RepresentsMember(node: Node, m: Member)
    decreases m, 2
  {
    && node.rule == DictKv && node.text != [] && |node.children| == 2
    && var key := node.children[0];
    && key.rule == DictKey && key.text != [] && !key.partial && |key.children| == 1
    && key.children[0].rule == DictKeyName && key.children[0].text == m.name
    && Represents(node.children[1], m.value)
  }

  // ----- the document that is printed

  /** The document for a value, with texts and names escaped. */
  function Written(v: Json): Doc {
    match v
    case Atom(text) => Word(text)
    case Text(text) => Str(Escape(text))
    case List(items) => Arr(WrittenItems(items))
    case Object(members) => Obj(WrittenMembers(members))
  }

  function WrittenItems(items: seq<Json>): (docs: seq<Doc>)
    ensures |docs| == |items|
  {
    if items == [] then [] else [Written(items[0])] + WrittenItems(items[1..])
  }

  function WrittenMembers(members: seq<Member>): (fields: seq<Field>)
    ensures |fields| == |members|
  {
    if members == [] then [] else [Field(Escape(members[0].name), Written(members[0].value))] + WrittenMembers(members[1..])
  }

  lemma {:induction false} CommaFront(nodes: seq<Node>)
    requires |nodes| > 1
    ensures CommaSeparated(nodes) == ToJson(nodes[0]) + ("," + CommaSeparated(nodes[1..]))
    decreases |nodes|
  {
    hide ToJson;
    var init, last := nodes[..|nodes| - 1], ToJson(nodes[|nodes| - 1]);
    var rest := nodes[1..];
    assert rest[|rest| - 1] == nodes[|nodes| - 1];
    if |nodes| == 2 {
      assert CommaSeparated(init) == ToJson(nodes[0]) && CommaSeparated(rest) == last;
    } else {
      CommaFront(init);
      assert init[1..] == rest[..|rest| - 1];
      assert CommaSeparated(rest) == CommaSeparated(init[1..]) + ("," + last);
      Regroup(ToJson(nodes[0]), ",", CommaSeparated(init[1..]), "," + last);
    }
  }

  lemma Regroup(a: string, b: string, c: string, d: string)
    ensures (a + (b + c)) + d == a + (b + (c + d))
  {
  }

  /** A document that means a value, and its text. */
  ghost predicate Writes(text: string, d: Doc, v: Json) {
    Proper(d) && Meaning(d) == v && text == Print(d, "")
  }

  ghost predicate WritesItems(text: string, docs: seq<Doc>, items: seq<Json>) {
    (forall x :: x in docs ==> Proper(x)) && Meanings(docs) == items && text == PrintDocs(docs, "")
  }

  ghost predicate WritesMembers(text: string, fields: seq<Field>, members: seq<Member>) {
    (forall f :: f in fields ==> Unescape(f.key).Some? && Proper(f.value)) && FieldMeanings(fields) == members
    && text == PrintFields(fields, "")
  }

  lemma {:induction false} TreeWrites(node: Node, v: Json)
    requires Represents(node, v)
    ensures Writes(ToJson(node), Written(v), v)
    decreases v, 0
  {
    hide Writes, WritesItems, WritesMembers;
    var plain := node.children[0];
    assert ToJson(node) == ToJson(plain);
    match v
    case Atom(text) => AtomWrites(plain, text);
    case Text(text) => TextWrites(plain, text);
    case List(items) =>
      ItemsWrite(plain.children, items);
      ListWrites(plain, items);
    case Object(members) =>
      MembersWrite(plain.children, members);
      ObjectWrites(plain, members);
  }

  lemma AtomWrites(node: Node, text: string)
    requires RepresentsPlain(node, Atom(text))
    ensures Writes(ToJson(node), Word(text), Atom(text))
  {
  }

  lemma ListWrites(node: Node, items: seq<Json>)
    requires RepresentsPlain(node, List(items)) && WritesItems(CommaSeparated(node.children), WrittenItems(items), items)
    ensures Writes(ToJson(node), Arr(WrittenItems(items)), List(items))
  {
    hide ToJson, CommaSeparated, WrittenItems, PrintDocs, Meanings;
    ListPrints(node, items);
  }

  lemma ObjectWrites(node: Node, members: seq<Member>)
    requires RepresentsPlain(node, Object(members)) && WritesMembers(CommaSeparated(node.children), WrittenMembers(members), members)
    ensures Writes(ToJson(node), Obj(WrittenMembers(members)), Object(members))
  {
    hide ToJson, CommaSeparated, WrittenMembers, PrintFields, FieldMeanings;
    ObjectPrints(node, members);
  }

  lemma TextPrints(node: Node, text: string)
    requires RepresentsPlain(node, Text(text))
    ensures ToJson(node) == "\"" + Escape(text) + "\""
  {
    assert ToJson(node.children[0]) == Escape(text);
    assert ToJson(node) == "\"" + (Escape(text) + "\"");
  }

  lemma TextWrites(node: Node, text: string)
    requires RepresentsPlain(node, Text(text))
    ensures Writes(ToJson(node), Str(Escape(text)), Text(text))
  {
    hide Escape, Unescape, ToJson;
    UnescapeEscape(text);
    TextPrints(node, text);
  }

  lemma ListPrints(node: Node, items: seq<Json>)
    requires RepresentsPlain(node, List(items))
    ensures ToJson(node) == "[" + (CommaSeparated(node.children) + "]")
  {
  }

  lemma ObjectPrints(node: Node, members: seq<Member>)
    requires RepresentsPlain(node, Object(members))
    ensures ToJson(node) == "{" + (CommaSeparated(node.children) + "}")
  {
  }

  lemma {:induction false} ItemsWrite(nodes: seq<Node>, items: seq<Json>)
    requires |nodes| == |items| && forall i :: 0 <= i < |items| ==> Represents(nodes[i], items[i])
    ensures WritesItems(CommaSeparated(nodes), WrittenItems(items), items)
    decreases items
  {
    hide ToJson, Represents, Written, Print, Proper;
    if items != [] {
      var docs := WrittenItems(items);
      TreeWrites(nodes[0], items[0]);
      ItemsWrite(nodes[1..], items[1..]);
      assert docs[0] == Written(items[0]) && docs[1..] == WrittenItems(items[1..]);
      assert items == [items[0]] + items[1..];
      assert "" + PrintDocs(docs[1..], "") == PrintDocs(docs[1..], "");
      if |nodes| > 1 {
        CommaFront(nodes);
      }
    }
  }

  ghost predicate WritesMember(text: string, f: Field, m: Member) {
    Unescape(f.key).Some? && Proper(f.value) && Member(Unescape(f.key).value, Meaning(f.value)) == m && text == PrintField(f, "")
  }

  /** One more member in front. */
  lemma MemberInFront(text: string, f: Field, m: Member, more: string, fields: seq<Field>, members: seq<Member>)
    requires WritesMember(text, f, m) && WritesMembers(more, fields, members)
    ensures WritesMembers(if fields == [] then text else text + ("," + more), [f] + fields, [m] + members)
  {
    hide Unescape, Proper, Meaning, PrintField;
    var all := [f] + fields;
    assert all[0] == f && all[1..] == fields;
    assert "" + more == more;
  }

  lemma MemberWrites(node: Node, m: Member)
    requires RepresentsMember(node, m) && Writes(ToJson(node.children[1]), Written(m.value), m.value)
    ensures WritesMember(ToJson(node), Field(Escape(m.name), Written(m.value)), m)
  {
    hide Unescape, Escape, Proper, Meaning, Print, Represents, PrintField;
    UnescapeEscape(m.name);
    MemberIsField(node, m);
  }

  lemma {:induction false} MembersWrite(nodes: seq<Node>, members: seq<Member>)
    requires |nodes| == |members| && forall i :: 0 <= i < |members| ==> RepresentsMember(nodes[i], members[i])
    ensures WritesMembers(CommaSeparated(nodes), WrittenMembers(members), members)
    decreases members
  {
    hide ToJson, Represents, Written, WritesMember, WritesMembers, Writes, Escape;
    if members == [] {
      NoMembers();
    } else {
      var m := members[0];
      assert RepresentsMember(nodes[0], m);
      TreeWrites(nodes[0].children[1], m.value);
      MemberWrites(nodes[0], m);
      MembersWrite(nodes[1..], members[1..]);
      MemberInFront(ToJson(nodes[0]), Field(Escape(m.name), Written(m.value)), m,
                    CommaSeparated(nodes[1..]), WrittenMembers(members[1..]), members[1..]);
      assert members == [m] + members[1..];
      if |nodes| > 1 {
        CommaFront(nodes);
      }
    }
  }

  lemma NoMembers()
    ensures WritesMembers(CommaSeparated([]), WrittenMembers([]), [])
  {
  }

  lemma MemberIsField(node: Node, m: Member)
    requires RepresentsMember(node, m) && ToJson(node.children[1]) == Print(Written(m.value), "")
    ensures ToJson(node) == PrintField(Field(Escape(m.name), Written(m.value)), "")
  {
    hide ToJson, Escape, Written, Print;
    MemberPrints(node, m);
    var value := Print(Written(m.value), "");
    assert "" + value == value;
    assert "\"" + Escape(m.name) + ("\"" + (":" + value)) == "\"" + Escape(m.name) + "\"" + (":" + value);
  }

  lemma MemberPrints(node: Node, m: Member)
    requires RepresentsMember(node, m)
    ensures ToJson(node) == "\"" + Escape(m.name) + ("\"" + (":" + ToJson(node.children[1])))
  {
    hide Escape, Represents;
    var key, value := node.children[0], node.children[1];
    KeyPrints(key, m.name);
    KvPrints(node);
    hide ToJson;
    assert "\"" + Escape(m.name) + "\":" + ToJson(value) == "\"" + Escape(m.name) + ("\"" + (":" + ToJson(value)));
  }

  lemma KeyPrints(key: Node, name: string)
    requires key.rule == DictKey && key.text != [] && !key.partial && |key.children| == 1
    requires key.children[0].rule == DictKeyName && key.children[0].text == name
    ensures ToJson(key) == "\"" + Escape(name) + "\":"
  {
    hide Escape;
    assert ToJson(key.children[0]) == name;
  }

  lemma KvPrints(node: Node)
    requires node.rule == DictKv && node.text != [] && |node.children| == 2
    ensures ToJson(node) == ToJson(node.children[0]) + ToJson(node.children[1])
  {
    assert ToJson(node) == Concatenated(node.children);
    hide ToJson;
    TwoConcatenated(node.children);
  }

  lemma TwoConcatenated(c: seq<Node>)
    requires |c| == 2
    ensures Concatenated(c) == ToJson(c[0]) + ToJson(c[1])
  {
    hide ToJson;
    assert c[..1][..0] == [] && c[..1][0] == c[0];
    assert Concatenated(c[..1]) == Concatenated([]) + ToJson(c[0]) == ToJson(c[0]);
  }

  /** The JSON printed for a complete tree stands for the same value as the tree, for any nesting. */
  lemma PrintsTheValue(node: Node, v: Json)
    requires Represents(node, v)
    ensures ReadValue(ToJson(node)) == Some(Read(v, []))
  {
    hide ToJson, ReadValue, Represents, Proper, Print, Meaning;
    TreeWrites(node, v);
    ReadsDocument(Written(v), "");
  }
}
