/** What the writer makes of a well-nested element: the entries a tree of
    elements and attributes produces, a direct rendering of that tree as
    indented XML text, and the proof that running the entries through the
    serializer writes exactly that text. */
module Rendering {
  import opened Wrappers
  import opened Prefixes
  import opened Writer
  import opened Joining

  datatype Attribute = Attribute(member: Member, value: string)

  /** An element with its attributes and child elements. */
  datatype Node = Node(member: Member, attributes: seq<Attribute>, children: seq<Node>)

  function AttributeTokens(attributes: seq<Attribute>): seq<Entry>
    decreases |attributes|
  {
    if attributes == [] then []
    else [AttributeName(attributes[0].member), Value(attributes[0].value)] + AttributeTokens(attributes[1..])
  }

  /** The entries of an element: its start tag, its attributes, the end of
      the start tag when it has children, its children, its end tag. */
  function Tokens(n: Node): seq<Entry>
    decreases n, 2
  {
    [Open(n.member)] + AttributeTokens(n.attributes) + Body(n) + [Close(n.member)]
  }

  /** The entries between the attributes and the end tag. */
  function Body(n: Node): seq<Entry>
    decreases n, 1
  {
    if n.children == [] then [] else [Emitted] + ChildTokens(n.children)
  }

  function ChildTokens(children: seq<Node>): seq<Entry>
    decreases children, 0
  {
    if children == [] then [] else Tokens(children[0]) + ChildTokens(children[1..])
  }

  /** An attribute inside the start tag of an element of namespace `ns`. */
  function AttributeText(a: Attribute, ns: nat, prefixList: seq<string>): string {
    var prefix := if a.member.ns == ns then "" else PrefixAt(prefixList, a.member.ns);
    (" " + prefix + a.member.name + "=") + ("\"" + a.value + "\"")
  }

  function AttributesText(attributes: seq<Attribute>, ns: nat, prefixList: seq<string>): string
    decreases |attributes|
  {
    if attributes == [] then ""
    else AttributeText(attributes[0], ns, prefixList) + AttributesText(attributes[1..], ns, prefixList)
  }

  /** The start tag of an element opened at `depth` after the text `open`,
      up to its attributes; the root declarations follow the name of an
      element opened at depth 0. */
  function StartText(n: Node, open: string, depth: int, prefixList: seq<string>, declarations: string): string {
    var tag := open + "<" + PrefixAt(prefixList, n.member.ns) + n.member.name;
    if depth == 0 then tag + declarations else tag
  }

  /** What follows the attributes: "/>" for an element without children;
      otherwise '>', each child on a new line one tab further in, and the
      end tag on a new line at the element's own depth. */
  function EndText(n: Node, depth: int, prefixList: seq<string>, declarations: string): string
    decreases n, 0
  {
    if n.children == [] then "/>"
    else
      ">" + ChildrenText(n.children, depth + 1, prefixList, declarations) +
      (Indent(depth) + ("</" + PrefixAt(prefixList, n.member.ns) + n.member.name + ">"))
  }

  /** The text of an element opened at `depth` after the text `open`. */
  function NodeText(n: Node, open: string, depth: int, prefixList: seq<string>, declarations: string): string
    decreases n, 1
  {
    StartText(n, open, depth, prefixList, declarations) +
    (AttributesText(n.attributes, n.member.ns, prefixList) + EndText(n, depth, prefixList, declarations))
  }

  function ChildrenText(children: seq<Node>, depth: int, prefixList: seq<string>, declarations: string): string
    decreases children, 2
  {
    if children == [] then ""
    else
      NodeText(children[0], Indent(depth), depth, prefixList, declarations) +
      ChildrenText(children[1..], depth, prefixList, declarations)
  }

  // ---------------------------------------------------------------------
  // The serializer writes the rendering
  // ---------------------------------------------------------------------

  /** Inside a start tag, an attribute writes its name and its quoted
      value, and the writer stays where it was. */
  lemma RunAttribute(w: Snapshot, a: Attribute, ns: nat)
    requires w.context.state == Element && w.context.nsElement == Some(ns)
    ensures var r := Run(w, [AttributeName(a.member), Value(a.value)]);
      r.0 == w && Join(r.1) == AttributeText(a, ns, w.prefixList)
  {
    assert [AttributeName(a.member), Value(a.value)] == [AttributeName(a.member)] + [Value(a.value)];
    RunSingle(w, AttributeName(a.member));
    RunSingle(w, Value(a.value));
    RunJoin(w, [AttributeName(a.member)], [Value(a.value)]);
    var prefix := if a.member.ns == ns then "" else PrefixAt(w.prefixList, a.member.ns);
    JoinSingle(" " + prefix + a.member.name + "=");
    JoinSingle("\"" + a.value + "\"");
  }

  lemma {:induction false} RunAttributes(w: Snapshot, attributes: seq<Attribute>, ns: nat)
    requires w.context.state == Element && w.context.nsElement == Some(ns)
    ensures var r := Run(w, AttributeTokens(attributes));
      r.0 == w && Join(r.1) == AttributesText(attributes, ns, w.prefixList)
    decreases |attributes|
  {
    if attributes != [] {
      var a := attributes[0];
      RunJoin(w, [AttributeName(a.member), Value(a.value)], AttributeTokens(attributes[1..]));
      RunAttribute(w, a, ns);
      RunAttributes(w, attributes[1..], ns);
    }
  }

  /** From any writer, the entries of an element write its rendering at
      the writer's depth after the writer's indent, and leave the writer
      between tags at the same depth with the indent that depth calls for;
      the prefixes, declarations and chunk count are untouched. */
  lemma {:induction false} RunNode(w: Snapshot, n: Node)
    ensures var r := Run(w, Tokens(n)); var d := w.context.depth;
      Join(r.1) == NodeText(n, w.context.indent, d, w.prefixList, w.xmlnsDefinitions) &&
      r.0.context.state == Text && r.0.context.depth == d && r.0.context.indent == Indent(d) &&
      r.0.(context := w.context) == w
    decreases n, 3
  {
    var m := n.member;
    var attributes := AttributeTokens(n.attributes);
    var rest := attributes + (Body(n) + [Close(m)]);
    assert Tokens(n) == [Open(m)] + rest;
    var inside := Step(w, Open(m)).0;
    RunStartTag(w, m);
    RunJoin(w, [Open(m)], rest);
    RunJoin(inside, attributes, Body(n) + [Close(m)]);
    RunAttributes(inside, n.attributes, m.ns);
    RunElementEnd(inside, n, w.context.depth);
    ConcatAssociates(
      StartText(n, w.context.indent, w.context.depth, w.prefixList, w.xmlnsDefinitions),
      AttributesText(n.attributes, m.ns, w.prefixList),
      EndText(n, w.context.depth, w.prefixList, w.xmlnsDefinitions));
  }

  /** A start tag writes the start text at the writer's depth and indent. */
  lemma RunStartTag(w: Snapshot, m: Member)
    ensures var r := Run(w, [Open(m)]); var d := w.context.depth;
      r.0 == w.(context := Context(Element, d + 1, Indent(d + 1), Some(m.ns))) &&
      Join(r.1) == StartText(Node(m, [], []), w.context.indent, d, w.prefixList, w.xmlnsDefinitions)
  {
    RunSingle(w, Open(m));
    var tag := w.context.indent + "<" + PrefixAt(w.prefixList, m.ns) + m.name;
    if w.context.depth == 0 {
      JoinPair(tag, w.xmlnsDefinitions);
    } else {
      JoinSingle(tag);
    }
  }

  /** Right after the attributes of `n`, opened at depth `d`, the rest of
      its entries write its end text and leave the writer between tags at
      depth `d`. */
  lemma {:induction false} RunElementEnd(inside: Snapshot, n: Node, d: int)
    requires inside.context == Context(Element, d + 1, Indent(d + 1), Some(n.member.ns))
    ensures var r := Run(inside, Body(n) + [Close(n.member)]);
      Join(r.1) == EndText(n, d, inside.prefixList, inside.xmlnsDefinitions) &&
      r.0.context.state == Text && r.0.context.depth == d && r.0.context.indent == Indent(d) &&
      r.0.(context := inside.context) == inside
    decreases n, 2
  {
    var m := n.member;
    RunJoin(inside, Body(n), [Close(m)]);
    if n.children == [] {
      assert Run(inside, Body(n)).0 == inside && Run(inside, Body(n)).1 == [];
      RunSingle(inside, Close(m));
      JoinSingle("/>");
    } else {
      var between := Step(inside, Emitted).0;
      RunSingle(inside, Emitted);
      RunJoin(inside, [Emitted], ChildTokens(n.children));
      JoinSingle(">");
      RunChildren(between, n.children);
      var after := Run(between, ChildTokens(n.children)).0;
      RunSingle(after, Close(m));
      JoinPair(Indent(d), EndTag(after, m));
      ConcatAssociates(">", ChildrenText(n.children, d + 1, inside.prefixList, inside.xmlnsDefinitions),
        Indent(d) + EndTag(after, m));
    }
  }

  /** Between tags, with the indent the depth calls for, the entries of a
      list of children write their renderings one after the other and leave
      the writer as it was but for the namespace of the last element. */
  lemma {:induction false} RunChildren(w: Snapshot, children: seq<Node>)
    requires w.context.state == Text && IndentFollowsDepth(w.context)
    ensures var r := Run(w, ChildTokens(children)); var d := w.context.depth;
      Join(r.1) == ChildrenText(children, d, w.prefixList, w.xmlnsDefinitions) &&
      r.0.context.state == Text && r.0.context.depth == d && r.0.context.indent == Indent(d) &&
      r.0.(context := w.context) == w
    decreases children, 1
  {
    if children != [] {
      RunJoin(w, Tokens(children[0]), ChildTokens(children[1..]));
      RunNode(w, children[0]);
      RunChildren(Run(w, Tokens(children[0])).0, children[1..]);
    }
  }

  // ---------------------------------------------------------------------
  // A whole document
  // ---------------------------------------------------------------------

  /** Below depth 0 the root declarations play no part in the text. */
  lemma {:induction false} NodeWithoutDeclarations(n: Node, open: string, depth: int, prefixList: seq<string>, declarations: string)
    requires depth >= 1
    ensures NodeText(n, open, depth, prefixList, declarations) == NodeText(n, open, depth, prefixList, "")
    decreases n, 1
  {
    if n.children != [] {
      assert EndText(n, depth, prefixList, declarations) == EndText(n, depth, prefixList, "") by {
        ChildrenWithoutDeclarations(n.children, depth + 1, prefixList, declarations);
      }
    }
  }

  lemma {:induction false} ChildrenWithoutDeclarations(children: seq<Node>, depth: int, prefixList: seq<string>, declarations: string)
    requires depth >= 1
    ensures ChildrenText(children, depth, prefixList, declarations) == ChildrenText(children, depth, prefixList, "")
    decreases children, 2
  {
    if children != [] {
      NodeWithoutDeclarations(children[0], Indent(depth), depth, prefixList, declarations);
      ChildrenWithoutDeclarations(children[1..], depth, prefixList, declarations);
    }
  }

  /** A fresh writer fed a namespace list and the entries of a root element
      in its first chunk writes the rendering of the root at depth 1 with
      the allocated prefixes, starting without a newline. Because the
      writer starts at depth 1, no element reaches depth 0 and the root
      declarations are never written. */
  lemma DocumentText(list: seq<Option<Namespace>>, root: Node)
    ensures var a := Allocate(list, [], map[]);
      Feed(Initial, [NamespaceList(list)] + Tokens(root)).1 == NodeText(root, "", 1, a.prefixList, "")
  {
    var a := Allocate(list, [], map[]);
    var w := Step(Initial, NamespaceList(list)).0;
    assert w.context == Initial.context && w.prefixList == a.prefixList && w.xmlnsDefinitions == a.declarations;
    var text := NodeText(root, "", 1, a.prefixList, a.declarations);
    assert Join(Run(Initial, [NamespaceList(list)] + Tokens(root)).1) == text by {
      RunSingle(Initial, NamespaceList(list));
      RunJoin(Initial, [NamespaceList(list)], Tokens(root));
      RunNode(w, root);
    }
    NodeWithoutDeclarations(root, "", 1, a.prefixList, a.declarations);
  }

  /** One namespace without a preferred prefix; a root element `root` of
      that namespace with the attribute `x="5"` in the same namespace and
      one empty child `child`. */
  const ExampleRoot: Node :=
    Node(Member(0, "root"), [Attribute(Member(0, "x"), "5")], [Node(Member(0, "child"), [], [])])

  lemma ExampleTokens()
    ensures Tokens(ExampleRoot) ==
      [Open(Member(0, "root")), AttributeName(Member(0, "x")), Value("5"), Emitted,
       Open(Member(0, "child")), Close(Member(0, "child")), Close(Member(0, "root"))]
  {
    var child := Node(Member(0, "child"), [], []);
    assert Body(child) == [];
    assert Tokens(child) == [Open(Member(0, "child")), Close(Member(0, "child"))];
    assert AttributeTokens(ExampleRoot.attributes) == [AttributeName(Member(0, "x")), Value("5")];
    assert ChildTokens(ExampleRoot.children) == Tokens(child);
  }

  lemma ExampleText()
    ensures NodeText(ExampleRoot, "", 1, ["p1:"], "") ==
      "<p1:root" + (" x=\"5\"" + (">" + "\n\t<p1:child/>" + "\n</p1:root>"))
  {
    var child := Node(Member(0, "child"), [], []);
    var pl := ["p1:"];
    assert Tabs(1) == "\t";
    assert StartText(ExampleRoot, "", 1, pl, "") == "<p1:root";
    assert AttributesText(ExampleRoot.attributes, 0, pl) == " x=\"5\"";
    assert NodeText(child, Indent(2), 2, pl, "") == "\n\t<p1:child/>";
    assert ChildrenText(ExampleRoot.children, 2, pl, "") == "\n\t<p1:child/>";
    assert EndText(ExampleRoot, 1, pl, "") == ">" + "\n\t<p1:child/>" + "\n</p1:root>";
  }

  /** The example document: no newline before the root, the attribute
      without a prefix, the empty child self-closed one tab in, and no
      `xmlns` declaration. */
  lemma DocumentExample()
    ensures Feed(Initial, [NamespaceList(SingleList)] + Tokens(ExampleRoot)).1 ==
      "<p1:root" + (" x=\"5\"" + (">" + "\n\t<p1:child/>" + "\n</p1:root>"))
  {
    SingleExample();
    DocumentText(SingleList, ExampleRoot);
    ExampleText();
  }
}
