/** A tree that is still growing prints what the same tree prints when its nodes are complete, short of the closers. */
module GemmaPartial {
  import opened JsonText
  import opened GemmaTree

  predicate Complete(node: Node) {
    !node.partial && CompleteAll(node.children)
  }

  predicate CompleteAll(nodes: seq<Node>) {
    nodes == [] || (CompleteAll(nodes[..|nodes| - 1]) && Complete(nodes[|nodes| - 1]))
  }

  /**
    Only the last node of each row of children is not complete, and then its parent is not either; nodes with one child in
    the grammar have at most one.
   */
  predicate Growing(node: Node) {
    && (if node.partial then GrowingAll(node.children) else CompleteAll(node.children))
    && (node.rule == String || node.rule == DictKey || node.rule == Value ==> |node.children| <= 1)
    && (node.rule == DictKey && node.children != [] ==> node.children[0].rule == DictKeyName)
  }

  predicate GrowingAll(nodes: seq<Node>) {
    nodes == [] || (CompleteAll(nodes[..|nodes| - 1]) && Growing(nodes[|nodes| - 1]))
  }

  /** The same tree with all nodes complete. */
  function Completed(node: Node): Node {
    node.(partial := false, children := CompletedAll(node.children))
  }

  function CompletedAll(nodes: seq<Node>): (r: seq<Node>)
    ensures |r| == |nodes|
  {
    if nodes == [] then [] else CompletedAll(nodes[..|nodes| - 1]) + [Completed(nodes[|nodes| - 1])]
  }

  /** The closing quotes and brackets that are not printed yet, innermost first. */
  function Missing(node: Node): string {
    if node.text == [] then []
    else match node.rule
         case String => if node.children == [] then [] else MissingLast(node.children) + Unclosed(node, "\"")
         case Array => MissingLast(node.children) + Unclosed(node, "]")
         case Dict => MissingLast(node.children) + Unclosed(node, "}")
         case DictKey => Unclosed(node, "\":")
         case DictKv | Value => MissingLast(node.children)
         case _ => []
  }

  function MissingLast(nodes: seq<Node>): string {
    if nodes == [] then [] else Missing(nodes[|nodes| - 1])
  }

  function Unclosed(node: Node, closer: string): string {
    if node.partial then closer else []
  }

  lemma {:induction false} CompleteStays(node: Node)
    requires Complete(node)
    ensures Completed(node) == node
    decreases node, 1
  {
    CompleteAllStay(node.children);
  }

  lemma {:induction false} CompleteAllStay(nodes: seq<Node>)
    requires CompleteAll(nodes)
    ensures CompletedAll(nodes) == nodes
    decreases nodes, 0
  {
    if nodes != [] {
      CompleteAllStay(nodes[..|nodes| - 1]);
      CompleteStays(nodes[|nodes| - 1]);
      assert nodes[..|nodes| - 1] + [nodes[|nodes| - 1]] == nodes;
    }
  }

  /** Only the last node of the row is changed. */
  lemma LastCompleted(nodes: seq<Node>)
    requires nodes != [] && GrowingAll(nodes)
    ensures CompletedAll(nodes) == nodes[..|nodes| - 1] + [Completed(nodes[|nodes| - 1])]
  {
    CompleteAllStay(nodes[..|nodes| - 1]);
  }

  lemma Enclosed(open: string, a: string, missing: string, close: string)
    ensures open + ((a + missing) + close) == (open + (a + [])) + (missing + close)
  {
  }

  /** What an open node prints lacks what its children lack and its own closer. */
  lemma OpenNode(node: Node, done: Node)
    requires node.partial && node.text != [] && done == node.(partial := false, children := done.children)
    requires |done.children| == |node.children|
    requires match node.rule
             case String | Value => node.children != [] ==>
               ToJson(done.children[0]) == ToJson(node.children[0]) + MissingLast(node.children)
             case DictKey => node.children != [] ==> ToJson(done.children[0]) == ToJson(node.children[0])
             case Array | Dict => CommaSeparated(done.children) == CommaSeparated(node.children) + MissingLast(node.children)
             case DictKv => Concatenated(done.children) == Concatenated(node.children) + MissingLast(node.children)
             case _ => true
    ensures ToJson(done) == ToJson(node) + Missing(node)
  {
    hide CommaSeparated, Concatenated, Missing, Escape;
    MissingOf(node);
    var c, text := node.children, ToJson(node);
    assert text + [] == text;
    match node.rule
    case String => if c != [] { Enclosed("\"", ToJson(c[0]), MissingLast(c), "\""); }
    case Array => Enclosed("[", CommaSeparated(c), MissingLast(c), "]");
    case Dict => Enclosed("{", CommaSeparated(c), MissingLast(c), "}");
    case DictKey =>
      var open := if c == [] then "\"" else "\"" + Escape(ToJson(c[0]));
      assert text == open + [] && ToJson(done) == open + "\":";
      assert (open + []) + "\":" == open + "\":";
    case _ =>
  }

  lemma MissingOf(node: Node)
    requires node.partial && node.text != []
    ensures Missing(node) == match node.rule
                             case String => if node.children == [] then [] else MissingLast(node.children) + "\""
                             case Array => MissingLast(node.children) + "]"
                             case Dict => MissingLast(node.children) + "}"
                             case DictKey => "\":"
                             case DictKv | Value => MissingLast(node.children)
                             case _ => []
  {
  }

  /** What a growing tree prints lacks exactly the closers of its open nodes. */
  lemma {:induction false} PrintsUpToClosers(node: Node)
    requires Growing(node)
    ensures ToJson(Completed(node)) == ToJson(node) + Missing(node)
    decreases node, 1
  {
    var c := node.children;
    if !node.partial {
      CompleteStays(node);
      CompleteLacksNothing(node);
      assert ToJson(node) + [] == ToJson(node);
    } else if node.text == [] {
      NothingPrinted(node);
    } else {
      SeparatedUpToClosers(c);
      ConcatenatedUpToClosers(c);
      if |c| == 1 {
        LastCompleted(c);
        PrintsUpToClosers(c[0]);
        NameLacksNothing(c[0]);
      }
      hide ToJson, Missing, Complete, Growing, CompletedAll;
      OpenNode(node, Completed(node));
    }
  }

  lemma NothingPrinted(node: Node)
    requires node.text == []
    ensures ToJson(Completed(node)) == ToJson(node) + Missing(node)
  {
  }

  lemma NameLacksNothing(node: Node)
    ensures node.rule == DictKeyName ==> Missing(node) == [] && ToJson(node) + [] == ToJson(node)
  {
  }

  lemma {:induction false} CompleteLacksNothing(node: Node)
    requires Complete(node)
    ensures Missing(node) == []
    decreases node
  {
    if node.children != [] {
      CompleteLacksNothing(node.children[|node.children| - 1]);
    }
  }

  lemma NoneCompleted()
    ensures CompletedAll([]) == []
  {
  }

  lemma {:induction false} SeparatedUpToClosers(nodes: seq<Node>)
    requires GrowingAll(nodes)
    ensures CommaSeparated(CompletedAll(nodes)) == CommaSeparated(nodes) + MissingLast(nodes)
    decreases nodes, 0
  {
    hide ToJson, Missing, Growing, CompletedAll;
    NoneCompleted();
    if nodes != [] {
      LastCompleted(nodes);
      PrintsUpToClosers(nodes[|nodes| - 1]);
      var done := CompletedAll(nodes);
      assert done[..|done| - 1] == nodes[..|nodes| - 1];
    }
  }

  lemma {:induction false} ConcatenatedUpToClosers(nodes: seq<Node>)
    requires GrowingAll(nodes)
    ensures Concatenated(CompletedAll(nodes)) == Concatenated(nodes) + MissingLast(nodes)
    decreases nodes, 0
  {
    hide ToJson, Missing, Growing, CompletedAll;
    NoneCompleted();
    if nodes != [] {
      LastCompleted(nodes);
      PrintsUpToClosers(nodes[|nodes| - 1]);
      var done := CompletedAll(nodes);
      assert done[..|done| - 1] == nodes[..|nodes| - 1];
    }
  }
}
