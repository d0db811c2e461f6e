/** The parsed document as a tree, and the inner text of a node as the viewer
    computes it (main.go, extractText). */
module Dom {
  import opened Strings

  /** Node kinds of the HTML parser that are neither elements nor text. */
  datatype OtherKind = Document | Comment | Doctype | Raw | ErrorNode

  /** A node of the parsed tree. The parser gives elements their lower-case
      tag name; children are in document order. */
  datatype Node =
    | Element(tag: string, children: seq<Node>)
    | Text(data: string)
    | Other(kind: OtherKind, data: string, children: seq<Node>)

  /** The children of a node, in order; a text node has none. */
  function Children(n: Node): seq<Node> {
    if n.Text? then [] else n.children
  }

  /** The text that extractText accumulates over the first |cs| children:
      a text child adds its data, an element child adds its own (trimmed)
      inner text, any other child adds nothing. */
  function ChildrenText(cs: seq<Node>): string
    decreases cs, 2
  {
    if cs == [] then "" else ChildrenText(cs[..|cs| - 1]) + Piece(cs[|cs| - 1])
  }

  /** What one child adds to its parent's text. */
  function Piece(c: Node): string
    decreases c, 1
  {
    match c
    case Text(d) => d
    case Element(_, _) => InnerText(c)
    case Other(_, _, _) => ""
  }

  /** The inner text of a node: its children's text, trimmed. Every nested
      element is trimmed on its own before it is joined, so whitespace at
      the edge of a nested element is lost. */
  function InnerText(n: Node): (r: string)
    ensures NoEdgeSpace(r)
    decreases n, 0
  {
    if n.Text? then "" else TrimSpace(ChildrenText(n.children))
  }

  /** Reference: every character of every text node reachable from n
      through elements only, in document order, untrimmed. */
  function RawText(n: Node): string
    decreases n, 0
  {
    if n.Text? then "" else RawChildrenText(n.children)
  }

  function RawChildrenText(cs: seq<Node>): string
    decreases cs, 2
  {
    if cs == [] then "" else RawChildrenText(cs[..|cs| - 1]) + RawPiece(cs[|cs| - 1])
  }

  function RawPiece(c: Node): string
    decreases c, 1
  {
    match c
    case Text(d) => d
    case Element(_, _) => RawText(c)
    case Other(_, _, _) => ""
  }

  /** The children that can contribute text: text nodes and elements. */
  function Content(cs: seq<Node>): (r: seq<Node>)
    ensures |r| <= |cs|
    ensures forall c :: c in r <==> c in cs && !c.Other?
  {
    if cs == [] then []
    else Content(cs[..|cs| - 1]) + (if cs[|cs| - 1].Other? then [] else [cs[|cs| - 1]])
  }

  /** extractText: loops over the children, appending text data and the
      recursively extracted text of elements, and trims the result. */
  method ExtractText(n: Node) returns (r: string)
    ensures r == InnerText(n)
    decreases n
  {
    var cs := Children(n);
    var text := "";
    var i := 0;
    while i < |cs|
      invariant i <= |cs|
      invariant text == ChildrenText(cs[..i])
    {
      var c := cs[i];
      assert cs[..i + 1][..i] == cs[..i];
      match c {
        case Text(d) =>
          text := text + d;
        case Element(_, _) =>
          var t := ExtractText(c);
          text := text + t;
        case Other(_, _, _) =>
      }
      i := i + 1;
    }
    assert cs[..i] == cs;
    r := TrimSpace(text);
  }

  /** The inner text only deletes characters from the reference text: it
      draws on text data alone, in document order. */
  lemma {:induction false} InnerTextSubsequence(n: Node)
    ensures Subsequence(InnerText(n), RawText(n))
    decreases n, 0
  {
    if !n.Text? {
      ChildrenTextSubsequence(n.children);
      TrimSpaceSubsequence(ChildrenText(n.children));
      SubsequenceTrans(InnerText(n), ChildrenText(n.children), RawChildrenText(n.children));
    }
  }

  lemma {:induction false} ChildrenTextSubsequence(cs: seq<Node>)
    ensures Subsequence(ChildrenText(cs), RawChildrenText(cs))
    decreases cs, 2
  {
    if cs != [] {
      var init, c := cs[..|cs| - 1], cs[|cs| - 1];
      ChildrenTextSubsequence(init);
      if c.Element? {
        InnerTextSubsequence(c);
      } else {
        SubsequenceRefl(Piece(c));
      }
      SubsequenceConcat(ChildrenText(init), RawChildrenText(init), Piece(c), RawPiece(c));
    }
  }

  /** Trimming at every level deletes only whitespace: the inner text and
      the reference text hold the same non-whitespace characters in the
      same order. */
  lemma {:induction false} InnerTextKeepsVisible(n: Node)
    ensures Visible(InnerText(n)) == Visible(RawText(n))
    decreases n, 0
  {
    if !n.Text? {
      ChildrenTextKeepsVisible(n.children);
      VisibleTrim(ChildrenText(n.children));
    }
  }

  lemma {:induction false} ChildrenTextKeepsVisible(cs: seq<Node>)
    ensures Visible(ChildrenText(cs)) == Visible(RawChildrenText(cs))
    decreases cs, 2
  {
    if cs != [] {
      var init, c := cs[..|cs| - 1], cs[|cs| - 1];
      ChildrenTextKeepsVisible(init);
      if c.Element? {
        InnerTextKeepsVisible(c);
      }
      VisibleConcat(ChildrenText(init), Piece(c));
      VisibleConcat(RawChildrenText(init), RawPiece(c));
    }
  }

  lemma NoSpaceConcat(a: string, b: string)
    requires NoSpace(a + b)
    ensures NoSpace(a) && NoSpace(b)
  {
    assert forall i :: 0 <= i < |a| ==> a[i] == (a + b)[i];
    assert forall i :: 0 <= i < |b| ==> b[i] == (a + b)[|a| + i];
  }

  /** Trimming is the only loss: when the reference text holds no
      whitespace at all, the inner text is exactly the reference text. */
  lemma {:induction false} InnerTextWithoutSpace(n: Node)
    requires NoSpace(RawText(n))
    ensures InnerText(n) == RawText(n)
    decreases n, 0
  {
    if !n.Text? {
      ChildrenTextWithoutSpace(n.children);
    }
  }

  lemma {:induction false} ChildrenTextWithoutSpace(cs: seq<Node>)
    requires NoSpace(RawChildrenText(cs))
    ensures ChildrenText(cs) == RawChildrenText(cs)
    decreases cs, 2
  {
    if cs != [] {
      var init, c := cs[..|cs| - 1], cs[|cs| - 1];
      NoSpaceConcat(RawChildrenText(init), RawPiece(c));
      ChildrenTextWithoutSpace(init);
      if c.Element? {
        InnerTextWithoutSpace(c);
      }
    }
  }

  /** Comments, doctypes and other non-text, non-element children
      contribute nothing, wherever they stand. */
  lemma {:induction false} ChildrenTextIgnoresOther(cs: seq<Node>)
    ensures ChildrenText(Content(cs)) == ChildrenText(cs)
  {
    if cs != [] {
      var c := cs[|cs| - 1];
      var init := cs[..|cs| - 1];
      ChildrenTextIgnoresOther(init);
      var k := Content(init) + [c];
      if !c.Other? {
        assert Content(cs) == k;
        assert k[..|k| - 1] == Content(init) && k[|k| - 1] == c;
        assert ChildrenText(k) == ChildrenText(Content(init)) + Piece(c);
      } else {
        assert Content(cs) == Content(init);
      }
    }
  }

  /** The inner text of an element does not depend on its tag, nor on its
      children that are neither text nor elements. */
  lemma InnerTextIgnoresOther(tag: string, tag': string, cs: seq<Node>)
    ensures InnerText(Element(tag, cs)) == InnerText(Element(tag', Content(cs)))
  {
    ChildrenTextIgnoresOther(cs);
  }

  lemma ChildrenTextOfOne(x: Node)
    ensures ChildrenText([x]) == Piece(x)
  {
    assert [x][..0] == [];
  }

  lemma ChildrenTextOfTwo(x: Node, y: Node)
    ensures ChildrenText([x, y]) == Piece(x) + Piece(y)
  {
    assert [x, y][..1] == [x];
    ChildrenTextOfOne(x);
  }

  lemma RawChildrenTextOfOne(x: Node)
    ensures RawChildrenText([x]) == RawPiece(x)
  {
    assert [x][..0] == [];
  }

  lemma RawChildrenTextOfTwo(x: Node, y: Node)
    ensures RawChildrenText([x, y]) == RawPiece(x) + RawPiece(y)
  {
    assert [x, y][..1] == [x];
    RawChildrenTextOfOne(x);
  }

  /** An element holding one text node has that text, trimmed. */
  lemma InnerTextOfText(tag: string, d: string)
    ensures InnerText(Element(tag, [Text(d)])) == TrimSpace(d)
  {
    ChildrenTextOfOne(Text(d));
  }

  /** An element whose only child is an element has that child's text:
      trimming it again changes nothing. */
  lemma InnerTextOfOnlyElement(tag: string, c: Node)
    requires c.Element?
    ensures InnerText(Element(tag, [c])) == InnerText(c)
  {
    ChildrenTextOfOne(c);
  }

  lemma InnerTextOfTextAndElement(tag: string, h: string, inner: string, w: string)
    requires NoEdgeSpace(w) && NoEdgeSpace(h + w)
    ensures InnerText(Element(tag, [Text(h), Element(inner, [Text(w)])])) == h + w
  {
    InnerTextOfText(inner, w);
    ChildrenTextOfTwo(Text(h), Element(inner, [Text(w)]));
  }

  lemma InnerTextOfElementAndText(tag: string, inner: string, w: string, t: string, w': string)
    requires TrimSpace(w) == w' && NoEdgeSpace(w' + t)
    ensures InnerText(Element(tag, [Element(inner, [Text(w)]), Text(t)])) == w' + t
  {
    InnerTextOfText(inner, w);
    ChildrenTextOfTwo(Element(inner, [Text(w)]), Text(t));
  }

  lemma RawTextOfElementAndText(tag: string, inner: string, w: string, t: string)
    ensures RawText(Element(tag, [Element(inner, [Text(w)]), Text(t)])) == w + t
  {
    RawChildrenTextOfOne(Text(w));
    RawChildrenTextOfTwo(Element(inner, [Text(w)]), Text(t));
  }

  /** Emphasis inside a heading is flattened into plain text. */
  lemma NestedMarkupFlattened()
    ensures InnerText(Element("h1", [Text("Hello "), Element("b", [Text("World")])])) == "Hello World"
  {
    assert NoEdgeSpace("World");
    assert "Hello " + "World" == "Hello World";
    assert NoEdgeSpace("Hello World");
    InnerTextOfTextAndElement("h1", "Hello ", "b", "World");
  }

  /** Trimming at every level: the spaces inside the nested element are cut
      before the sibling text is joined. */
  lemma TrimmedAtEveryLevel()
    ensures InnerText(Element("p", [Element("b", [Text(" a ")]), Text("b")])) == "ab"
  {
    SpacedA();
    assert "a" + "b" == "ab";
    assert NoEdgeSpace("ab");
    InnerTextOfElementAndText("p", "b", " a ", "b", "a");
  }

  /** Trimming the reference text once would keep the inner space. */
  lemma TrimmedOnceKeepsInnerSpace()
    ensures TrimSpace(RawText(Element("p", [Element("b", [Text(" a ")]), Text("b")]))) == "a b"
  {
    RawTextOfElementAndText("p", "b", " a ", "b");
    assert " a " + "b" == " " + "a b" + "";
    assert AllSpace(" ") && AllSpace("") && NoEdgeSpace("a b");
    TrimSpaceOfMargins(" ", "a b", "");
  }

  lemma SpacedA()
    ensures TrimSpace(" a ") == "a"
  {
    assert " a " == " " + "a" + " ";
    assert AllSpace(" ") && NoEdgeSpace("a");
    TrimSpaceOfMargins(" ", "a", " ");
  }
}
