/** The page text the viewer shows for a parsed document (main.go,
    displayContent): a pre-order walk that keeps the last title, a sticky
    "inside body" flag and an output builder, then a title line on top. */
module Extract {
  import opened Strings
  import opened Dom

  const Headings: set<string> := {"h1", "h2", "h3", "h4", "h5", "h6"}

  /** The three variables the walk updates: the title slot, the body flag
      and the text written to the builder so far. */
  datatype Extraction = Extraction(title: string, inBody: bool, text: string)

  /** Before the walk: no title, not in the body, nothing written. */
  const Start := Extraction("", false, "")

  /** What the walk does with a node, decided by the switch on its tag. */
  datatype Role = TitleRole | BodyRole | HeadingRole | ParagraphRole | NoRole

  function TagRole(tag: string): Role {
    if tag == "title" then TitleRole
    else if tag == "body" then BodyRole
    else if tag in Headings then HeadingRole
    else if tag == "p" then ParagraphRole
    else NoRole
  }

  /** Only elements are classified; text and other nodes have no role. */
  function RoleOf(n: Node): Role {
    if n.Element? then TagRole(n.tag) else NoRole
  }

  /** What a heading or paragraph writes when it is reached inside the body;
      other nodes write nothing. */
  function Segment(n: Node): string {
    match RoleOf(n)
    case HeadingRole => "\n[yellow::b]" + InnerText(n) + "[-::-]\n"
    case ParagraphRole => "\n" + InnerText(n) + "\n"
    case _ => ""
  }

  /** One node's own step of the walk, before its children. */
  function Visit(n: Node, st: Extraction): Extraction {
    match RoleOf(n)
    case TitleRole => st.(title := InnerText(n))
    case BodyRole => st.(inBody := true)
    case HeadingRole => if st.inBody then st.(text := st.text + Segment(n)) else st
    case ParagraphRole => if st.inBody then st.(text := st.text + Segment(n)) else st
    case NoRole => st
  }

  /** The nodes of a tree in pre-order: a node, then each child's subtree
      in child order. */
  function PreOrder(n: Node): (r: seq<Node>)
    ensures |r| >= 1 && r[0] == n
    decreases n, 0
  {
    if n.Text? then [n] else [n] + PreOrderAll(n.children)
  }

  function PreOrderAll(cs: seq<Node>): seq<Node>
    decreases cs, 1
  {
    if cs == [] then [] else PreOrderAll(cs[..|cs| - 1]) + PreOrder(cs[|cs| - 1])
  }

  /** The walk's state after visiting the nodes ns one after the other. */
  function Run(ns: seq<Node>, st: Extraction): Extraction {
    if ns == [] then st else Visit(ns[|ns| - 1], Run(ns[..|ns| - 1], st))
  }

  // Reference definitions over the pre-order list, stated without the walk.

  /** Some node in ns is a body element. */
  predicate BodyEntered(ns: seq<Node>) {
    ns != [] && (BodyEntered(ns[..|ns| - 1]) || RoleOf(ns[|ns| - 1]) == BodyRole)
  }

  /** The inner text of the last title element in ns, or dflt if ns holds
      none. */
  function LastTitle(ns: seq<Node>, dflt: string): string {
    if ns == [] then dflt
    else if RoleOf(ns[|ns| - 1]) == TitleRole then InnerText(ns[|ns| - 1])
    else LastTitle(ns[..|ns| - 1], dflt)
  }

  /** The segments of the nodes of ns that stand at or after a body element
      (or anywhere, when inBody), in order. */
  function Emitted(ns: seq<Node>, inBody: bool): string {
    if ns == [] then ""
    else
      var init := ns[..|ns| - 1];
      Emitted(init, inBody) + (if inBody || BodyEntered(init) then Segment(ns[|ns| - 1]) else "")
  }

  /** The title of a document as the viewer displays it. */
  function DocTitle(doc: Node): string {
    LastTitle(PreOrder(doc), "")
  }

  /** The headings and paragraphs of a document as the viewer displays them. */
  function BodyText(doc: Node): string {
    Emitted(PreOrder(doc), false)
  }

  /** The full page text: a title line, an empty line, then the body text. */
  function PageText(doc: Node): string {
    "[green::b]Title: " + DocTitle(doc) + "[-::-]\n\n" + BodyText(doc)
  }

  lemma {:induction false} RunAppend(a: seq<Node>, b: seq<Node>, st: Extraction)
    ensures Run(a + b, st) == Run(b, Run(a, st))
    decreases |b|
  {
    if b == [] {
      assert a + b == a;
    } else {
      assert (a + b)[..|a + b| - 1] == a + b[..|b| - 1];
      RunAppend(a, b[..|b| - 1], st);
    }
  }

  /** The reference state after the nodes ns, from st. */
  function Reference(ns: seq<Node>, st: Extraction): Extraction {
    Extraction(LastTitle(ns, st.title), st.inBody || BodyEntered(ns), st.text + Emitted(ns, st.inBody))
  }

  lemma ReferenceStepTitle(ns: seq<Node>, st: Extraction)
    requires ns != []
    ensures Reference(ns, st).title == Visit(ns[|ns| - 1], Reference(ns[..|ns| - 1], st)).title
  {
  }

  lemma ReferenceStepText(ns: seq<Node>, st: Extraction)
    requires ns != []
    ensures Reference(ns, st).text == Visit(ns[|ns| - 1], Reference(ns[..|ns| - 1], st)).text
  {
    var init, n := ns[..|ns| - 1], ns[|ns| - 1];
    var b := st.inBody || BodyEntered(init);
    assert Emitted(ns, st.inBody) == Emitted(init, st.inBody) + (if b then Segment(n) else "");
  }

  /** One more node: the reference moves exactly as the walk's own step. */
  lemma ReferenceStep(ns: seq<Node>, st: Extraction)
    requires ns != []
    ensures Reference(ns, st) == Visit(ns[|ns| - 1], Reference(ns[..|ns| - 1], st))
  {
    ReferenceStepTitle(ns, st);
    ReferenceStepText(ns, st);
  }

  /** The walk over a node list is exactly the reference: the last title
      wins, the body flag is set once some body element was visited and
      never cleared, and the output is the reference segments, appended. */
  lemma {:induction false} RunIsReference(ns: seq<Node>, st: Extraction)
    ensures Run(ns, st) == Reference(ns, st)
  {
    if ns != [] {
      RunIsReference(ns[..|ns| - 1], st);
      ReferenceStep(ns, st);
    }
  }

  /** The switch at the head of traverse: updates the title slot, the body
      flag or the builder for the node itself, extracting its text only
      when it is used. */
  method VisitNode(n: Node, st: Extraction) returns (st': Extraction)
    ensures st' == Visit(n, st)
  {
    var title, inBody, text := st.title, st.inBody, st.text;
    if n.Element? {
      if n.tag == "title" {
        title := ExtractText(n);
      } else if n.tag == "body" {
        inBody := true;
      } else if n.tag in Headings {
        if inBody {
          var t := ExtractText(n);
          text := text + ("\n[yellow::b]" + t + "[-::-]\n");
        }
      } else if n.tag == "p" {
        if inBody {
          var t := ExtractText(n);
          text := text + ("\n" + t + "\n");
        }
      }
    }
    st' := Extraction(title, inBody, text);
  }

  /** traverse: handles the node itself, then walks its children in order.
      The three captured variables of the source are threaded through as
      st. */
  method Traverse(n: Node, st: Extraction) returns (st': Extraction)
    ensures st' == Run(PreOrder(n), st)
    decreases n
  {
    st' := VisitNode(n, st);
    var v := st';
    var cs := Children(n);
    var i := 0;
    while i < |cs|
      invariant i <= |cs|
      invariant st' == Run(PreOrderAll(cs[..i]), v)
    {
      RunNextChild(cs, i, v);
      st' := Traverse(cs[i], st');
      i := i + 1;
    }
    assert cs[..i] == cs;
    RunOfPreOrder(n, st);
  }

  /** Walking one more child's subtree extends the walk over the earlier
      children. */
  lemma RunNextChild(cs: seq<Node>, i: nat, v: Extraction)
    requires i < |cs|
    ensures Run(PreOrderAll(cs[..i + 1]), v) == Run(PreOrder(cs[i]), Run(PreOrderAll(cs[..i]), v))
  {
    assert cs[..i + 1][..i] == cs[..i];
    RunAppend(PreOrderAll(cs[..i]), PreOrder(cs[i]), v);
  }

  /** A node's walk is its own step, then its children's subtrees. */
  lemma RunOfPreOrder(n: Node, st: Extraction)
    ensures Run(PreOrder(n), st) == Run(PreOrderAll(Children(n)), Visit(n, st))
  {
    assert PreOrder(n) == [n] + PreOrderAll(Children(n));
    RunAppend([n], PreOrderAll(Children(n)), st);
    assert [n][..0] == [];
  }

  /** The part of displayContent after a successful parse: walk the whole
      document from the start state and put the title line on top. */
  method RenderPage(doc: Node) returns (page: string)
    ensures page == PageText(doc)
  {
    var st := Traverse(doc, Start);
    RunIsReference(PreOrder(doc), Start);
    assert st == Reference(PreOrder(doc), Start);
    page := "[green::b]Title: " + st.title + "[-::-]\n\n" + st.text;
  }
}
