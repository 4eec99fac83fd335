/** Printing a syntax tree of Gemma tool-call arguments as JSON, also while the tree is still growing. */
module GemmaTree {
  import opened JsonText

  datatype Rule = Number | Bool | Null | StringContent | String | Array | DictKeyName | DictKey | DictKv | Dict | Value | Other

  datatype Node = Node(rule: Rule, text: string, children: seq<Node>, partial: bool)

  function ToJson(node: Node): string {
    if node.text == [] then []
    else match node.rule
         case Number | Bool | Null | DictKeyName => node.text
         case StringContent => Escape(node.text)
         case String =>
           if node.children == [] then "\"" else "\"" + (ToJson(node.children[0]) + Closer(node, "\""))
         case Array => "[" + (CommaSeparated(node.children) + Closer(node, "]"))
         case DictKey =>
           (if node.children == [] then "\"" else "\"" + Escape(ToJson(node.children[0]))) + Closer(node, "\":")
         case DictKv => Concatenated(node.children)
         case Dict => "{" + (CommaSeparated(node.children) + Closer(node, "}"))
         case Value => if node.children == [] then [] else ToJson(node.children[0])
         case Other => []
  }

  /** A partial node is left open. */
  function Closer(node: Node, closer: string): string {
    if node.partial then [] else closer
  }

  function CommaSeparated(nodes: seq<Node>): string {
    if nodes == [] then []
    else if |nodes| == 1 then ToJson(nodes[0])
    else CommaSeparated(nodes[..|nodes| - 1]) + ("," + ToJson(nodes[|nodes| - 1]))
  }

  function Concatenated(nodes: seq<Node>): string {
    if nodes == [] then [] else Concatenated(nodes[..|nodes| - 1]) + ToJson(nodes[|nodes| - 1])
  }

  /** The loop over the children of an array or a dictionary. */
  method PrintCommaSeparated(nodes: seq<Node>, printed: seq<string>) returns (result: string)
    requires |printed| == |nodes| && forall k :: 0 <= k < |nodes| ==> printed[k] == ToJson(nodes[k])
    ensures result == CommaSeparated(nodes)
  {
    result := [];
    var addComma := false;
    var i := 0;
    while i < |nodes|
      invariant 0 <= i <= |nodes| && (addComma <==> i > 0)
      invariant result == CommaSeparated(nodes[..i])
    {
      assert nodes[..i + 1][..i] == nodes[..i];
      if addComma {
        result := result + ",";
      }
      addComma := true;
      result := result + printed[i];
      i := i + 1;
    }
    assert nodes[..i] == nodes;
  }

  /** Nodes that print a closing quote or bracket when they are complete. */
  predicate Closes(rule: Rule) {
    rule == String || rule == Array || rule == DictKey || rule == Dict
  }

  /**
    `early` is `full` truncated along its right spine: the nodes on the cut that would print a closing quote or bracket
    are marked partial. Others need not be, like a string content that ends before what may become a delimiter.
   */
  predicate Truncates(early: Node, full: Node)
    decreases full
  {
    || early == full
    || (&& (Closes(early.rule) ==> early.partial) && early.rule == full.rule && early.text <= full.text
        && TruncatesAll(early.children, full.children))
  }

  /** All nodes are there up to the last one, which may be truncated. */
  predicate TruncatesAll(early: seq<Node>, full: seq<Node>)
    decreases full
  {
    var n := |early|;
    n <= |full| && (n == 0 || (early[..n - 1] == full[..n - 1] && Truncates(early[n - 1], full[n - 1])))
  }

  /** What is printed for a truncated tree is a beginning of what is printed for the full tree. */
  lemma {:induction false} ToJsonGrows(early: Node, full: Node)
    requires Truncates(early, full)
    ensures ToJson(early) <= ToJson(full)
    decreases full, 1
  {
    if early != full && early.text != [] {
      assert full.text != [];
      match full.rule
      case Number | Bool | Null | DictKeyName | Other =>
      case StringContent => EscapeMonotone(early.text, full.text);
      case String | Value | DictKey =>
        if early.children != [] {
          FirstTruncates(early.children, full.children);
          ToJsonGrows(early.children[0], full.children[0]);
          var a, b := ToJson(early.children[0]), ToJson(full.children[0]);
          EscapeMonotone(a, b);
          PrefixWithin("\"", a, b, Closer(full, "\""));
          PrefixWithin("\"", Escape(a), Escape(b), Closer(full, "\":"));
          Associative("\"", Escape(b), Closer(full, "\":"));
        }
      case Array =>
        CommaSeparatedGrows(early.children, full.children);
        PrefixWithin("[", CommaSeparated(early.children), CommaSeparated(full.children), Closer(full, "]"));
      case Dict =>
        CommaSeparatedGrows(early.children, full.children);
        PrefixWithin("{", CommaSeparated(early.children), CommaSeparated(full.children), Closer(full, "}"));
      case DictKv => ConcatenatedGrows(early.children, full.children);
    }
  }

  lemma FirstTruncates(early: seq<Node>, full: seq<Node>)
    requires early != [] && TruncatesAll(early, full)
    ensures full != [] && Truncates(early[0], full[0])
  {
  }

  lemma PrefixWithin(open: string, a: string, b: string, close: string)
    requires a <= b
    ensures open + (a + []) <= open + (b + close) && open + a <= open + (b + close)
  {
  }

  lemma {:induction false} CommaSeparatedGrows(early: seq<Node>, full: seq<Node>)
    requires TruncatesAll(early, full)
    ensures CommaSeparated(early) <= CommaSeparated(full)
    decreases full, 0
  {
    var n := |early|;
    if 0 < n < |full| {
      CommaSeparatedGrows(early, full[..|full| - 1]);
      assert full[..|full| - 1][..n - 1] == full[..n - 1];
    } else if n == |full| && n > 0 {
      ToJsonGrows(early[n - 1], full[n - 1]);
      if n > 1 {
        PrefixWithin(CommaSeparated(full[..n - 1]) + ",", ToJson(early[n - 1]), ToJson(full[n - 1]), []);
        Associative(CommaSeparated(full[..n - 1]), ",", ToJson(early[n - 1]));
        Associative(CommaSeparated(full[..n - 1]), ",", ToJson(full[n - 1]));
      }
    }
  }

  lemma {:induction false} ConcatenatedGrows(early: seq<Node>, full: seq<Node>)
    requires TruncatesAll(early, full)
    ensures Concatenated(early) <= Concatenated(full)
    decreases full, 0
  {
    var n := |early|;
    if 0 < n < |full| {
      ConcatenatedGrows(early, full[..|full| - 1]);
      assert full[..|full| - 1][..n - 1] == full[..n - 1];
    } else if n == |full| && n > 0 {
      ToJsonGrows(early[n - 1], full[n - 1]);
      PrefixWithin(Concatenated(full[..n - 1]), ToJson(early[n - 1]), ToJson(full[n - 1]), []);
    }
  }
}
