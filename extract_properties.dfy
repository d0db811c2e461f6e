/** What the pre-order walk of displayContent guarantees: the body flag is
    sticky, nothing is written before a body element, segments come out in
    document order with each node's own segment before its descendants',
    and the last title wins. Closing with the page for a few documents. */
module ExtractProperties {
  import opened Strings
  import opened Dom
  import opened Extract

  // The body flag.

  lemma {:induction false} BodyEnteredConcat(a: seq<Node>, b: seq<Node>)
    ensures BodyEntered(a + b) <==> BodyEntered(a) || BodyEntered(b)
    decreases |b|
  {
    if b == [] {
      assert a + b == a;
    } else {
      assert (a + b)[..|a + b| - 1] == a + b[..|b| - 1];
      BodyEnteredConcat(a, b[..|b| - 1]);
    }
  }

  /** BodyEntered says exactly that some node of the list is a body element. */
  lemma {:induction false} BodyEnteredIff(ns: seq<Node>)
    ensures BodyEntered(ns) <==> exists i :: 0 <= i < |ns| && RoleOf(ns[i]) == BodyRole
  {
    if ns != [] {
      var init := ns[..|ns| - 1];
      BodyEnteredIff(init);
      if BodyEntered(init) {
        var i :| 0 <= i < |init| && RoleOf(init[i]) == BodyRole;
        assert ns[i] == init[i];
      }
      if exists i :: 0 <= i < |ns| && RoleOf(ns[i]) == BodyRole {
        var i :| 0 <= i < |ns| && RoleOf(ns[i]) == BodyRole;
        if i < |init| { assert init[i] == ns[i]; }
      }
    }
  }

  /** Once the walk has set the flag, no later node clears it. */
  lemma BodyFlagSticky(a: seq<Node>, b: seq<Node>, st: Extraction)
    requires Run(a, st).inBody
    ensures Run(a + b, st).inBody
  {
    RunAppend(a, b, st);
    RunIsReference(b, Run(a, st));
  }

  /** The flag is set exactly when a body element has been visited (or it
      was set to begin with). */
  lemma BodyFlagExactly(ns: seq<Node>, st: Extraction)
    ensures Run(ns, st).inBody <==> st.inBody || exists i :: 0 <= i < |ns| && RoleOf(ns[i]) == BodyRole
  {
    RunIsReference(ns, st);
    BodyEnteredIff(ns);
  }

  // The output.

  /** One unfolding of Emitted, at the last node. */
  lemma EmittedLast(ns: seq<Node>, inBody: bool)
    requires ns != []
    ensures Emitted(ns, inBody)
         == Emitted(ns[..|ns| - 1], inBody)
          + (if inBody || BodyEntered(ns[..|ns| - 1]) then Segment(ns[|ns| - 1]) else "")
  {
  }

  lemma ConcatAssoc(p: string, q: string, r: string)
    ensures p + q + r == p + (q + r)
  {
  }

  lemma {:induction false} EmittedConcat(a: seq<Node>, b: seq<Node>, inBody: bool)
    ensures Emitted(a + b, inBody) == Emitted(a, inBody) + Emitted(b, inBody || BodyEntered(a))
    decreases |b|
  {
    if b == [] {
      assert a + b == a;
    } else {
      var b', n := b[..|b| - 1], b[|b| - 1];
      var ab := a + b;
      assert ab[..|ab| - 1] == a + b' && ab[|ab| - 1] == n;
      var after := inBody || BodyEntered(a);
      EmittedConcat(a, b', inBody);
      BodyEnteredConcat(a, b');
      var x := if after || BodyEntered(b') then Segment(n) else "";
      EmittedLast(ab, inBody);
      EmittedLast(b, after);
      ConcatAssoc(Emitted(a, inBody), Emitted(b', after), x);
    }
  }

  /** Until a body element is visited, nothing at all is written. */
  lemma {:induction false} NothingBeforeBody(ns: seq<Node>)
    requires !BodyEntered(ns)
    ensures Emitted(ns, false) == ""
  {
    if ns != [] {
      NothingBeforeBody(ns[..|ns| - 1]);
    }
  }

  /** The output, cut at any node n: what the nodes before it write, then
      n's segment if a body element came before it, then what the nodes
      after it write. So segments appear in document order, each once. */
  lemma EmittedAround(a: seq<Node>, n: Node, c: seq<Node>)
    ensures Emitted(a + [n] + c, false)
         == Emitted(a, false)
          + (if BodyEntered(a) then Segment(n) else "")
          + Emitted(c, BodyEntered(a + [n]))
  {
    var own := if BodyEntered(a) then Segment(n) else "";
    var after := BodyEntered(a + [n]);
    assert after == (BodyEntered(a) || BodyEntered([n])) by {
      BodyEnteredConcat(a, [n]);
    }
    assert Emitted(a + [n] + c, false) == Emitted(a, false) + Emitted([n] + c, BodyEntered(a)) by {
      assert a + [n] + c == a + ([n] + c);
      EmittedConcat(a, [n] + c, false);
    }
    assert Emitted([n] + c, BodyEntered(a)) == own + Emitted(c, after) by {
      EmittedConcat([n], c, BodyEntered(a));
      EmittedOne(n, BodyEntered(a));
    }
    ConcatAssoc(Emitted(a, false), own, Emitted(c, after));
  }

  lemma EmittedOne(n: Node, inBody: bool)
    ensures Emitted([n], inBody) == (if inBody then Segment(n) else "")
  {
    EmittedLast([n], inBody);
    assert [n][..0] == [];
  }

  /** A node's own segment is written before anything its descendants
      write, and a body element turns the flag on for its own subtree. */
  lemma OwnSegmentFirst(n: Node, inBody: bool)
    ensures Emitted(PreOrder(n), inBody)
         == (if inBody then Segment(n) else "")
          + Emitted(PreOrderAll(Children(n)), inBody || RoleOf(n) == BodyRole)
  {
    assert PreOrder(n) == [n] + PreOrderAll(Children(n));
    EmittedConcat([n], PreOrderAll(Children(n)), inBody);
    EmittedOne(n, inBody);
    assert [n][..0] == [];
    assert BodyEntered([n]) <==> RoleOf(n) == BodyRole;
  }

  /** A document with no body element shows an empty body section. */
  lemma NoBodyNoText(doc: Node)
    requires forall i :: 0 <= i < |PreOrder(doc)| ==> RoleOf(PreOrder(doc)[i]) != BodyRole
    ensures BodyText(doc) == ""
    ensures PageText(doc) == "[green::b]Title: " + DocTitle(doc) + "[-::-]\n\n"
  {
    BodyEnteredIff(PreOrder(doc));
    NothingBeforeBody(PreOrder(doc));
    assert PageText(doc) == "[green::b]Title: " + DocTitle(doc) + "[-::-]\n\n" + "";
  }

  // The title.

  /** The title is the inner text of the last title element. */
  lemma {:induction false} LastTitleIsLast(ns: seq<Node>, i: nat, dflt: string)
    requires i < |ns| && RoleOf(ns[i]) == TitleRole
    requires forall j :: i < j < |ns| ==> RoleOf(ns[j]) != TitleRole
    ensures LastTitle(ns, dflt) == InnerText(ns[i])
  {
    if i < |ns| - 1 {
      var init := ns[..|ns| - 1];
      assert init[i] == ns[i];
      assert forall j :: i < j < |init| ==> init[j] == ns[j];
      LastTitleIsLast(init, i, dflt);
    }
  }

  /** Without a title element the slot keeps its default. */
  lemma {:induction false} LastTitleDefault(ns: seq<Node>, dflt: string)
    requires forall j :: 0 <= j < |ns| ==> RoleOf(ns[j]) != TitleRole
    ensures LastTitle(ns, dflt) == dflt
  {
    if ns != [] {
      var init := ns[..|ns| - 1];
      assert forall j :: 0 <= j < |init| ==> init[j] == ns[j];
      LastTitleDefault(init, dflt);
    }
  }

  // Steps for evaluating the walk on small documents.

  lemma VisitNoRole(n: Node, st: Extraction)
    requires RoleOf(n) == NoRole
    ensures Visit(n, st) == st
  {
  }

  lemma VisitBody(n: Node, st: Extraction)
    requires RoleOf(n) == BodyRole
    ensures Visit(n, st) == st.(inBody := true)
  {
  }

  lemma RunChildrenOne(c: Node, st: Extraction)
    ensures Run(PreOrderAll([c]), st) == Run(PreOrder(c), st)
  {
    assert [c][..0] == [];
    assert PreOrderAll([c]) == [] + PreOrder(c);
    assert [] + PreOrder(c) == PreOrder(c);
  }

  lemma RunChildrenTwo(a: Node, b: Node, st: Extraction)
    ensures Run(PreOrderAll([a, b]), st) == Run(PreOrder(b), Run(PreOrder(a), st))
  {
    assert [a, b][..1] == [a];
    assert [a][..0] == [];
    assert PreOrderAll([a]) == [] + PreOrder(a);
    assert [] + PreOrder(a) == PreOrder(a);
    RunAppend(PreOrder(a), PreOrder(b), st);
  }

  /** An element whose only child is text: its own step, and nothing else. */
  lemma RunOfTextElement(tag: string, x: string, st: Extraction)
    ensures Run(PreOrder(Element(tag, [Text(x)])), st) == Visit(Element(tag, [Text(x)]), st)
  {
    var e := Element(tag, [Text(x)]);
    RunOfPreOrder(e, st);
    RunChildrenOne(Text(x), Visit(e, st));
    RunOfPreOrder(Text(x), Visit(e, st));
    assert PreOrderAll(Children(Text(x))) == [];
  }

  /** An element without a role passes the walk on to its children. */
  lemma RunOfWrapperOne(tag: string, a: Node, st: Extraction)
    requires TagRole(tag) == NoRole
    ensures Run(PreOrder(Element(tag, [a])), st) == Run(PreOrder(a), st)
  {
    var e := Element(tag, [a]);
    VisitNoRole(e, st);
    RunOfPreOrder(e, st);
    RunChildrenOne(a, st);
  }

  lemma RunOfWrapperTwo(tag: string, a: Node, b: Node, st: Extraction)
    requires TagRole(tag) == NoRole
    ensures Run(PreOrder(Element(tag, [a, b])), st) == Run(PreOrder(b), Run(PreOrder(a), st))
  {
    var e := Element(tag, [a, b]);
    VisitNoRole(e, st);
    RunOfPreOrder(e, st);
    RunChildrenTwo(a, b, st);
  }

  lemma RunOfBodyNone(st: Extraction)
    ensures Run(PreOrder(Element("body", [])), st) == st.(inBody := true)
  {
    VisitBody(Element("body", []), st);
    RunOfPreOrder(Element("body", []), st);
  }

  lemma RunOfBodyOne(a: Node, st: Extraction)
    ensures Run(PreOrder(Element("body", [a])), st) == Run(PreOrder(a), st.(inBody := true))
  {
    var e := Element("body", [a]);
    VisitBody(e, st);
    RunOfPreOrder(e, st);
    RunChildrenOne(a, st.(inBody := true));
  }

  lemma RunOfBodyTwo(a: Node, b: Node, st: Extraction)
    ensures Run(PreOrder(Element("body", [a, b])), st)
         == Run(PreOrder(b), Run(PreOrder(a), st.(inBody := true)))
  {
    var e := Element("body", [a, b]);
    VisitBody(e, st);
    RunOfPreOrder(e, st);
    RunChildrenTwo(a, b, st.(inBody := true));
  }

  lemma RunOfTitle(x: string, st: Extraction)
    ensures Run(PreOrder(Element("title", [Text(x)])), st) == st.(title := TrimSpace(x))
  {
    RunOfTextElement("title", x, st);
    InnerTextOfText("title", x);
  }

  /** A heading or paragraph outside the body changes nothing. */
  lemma RunOfSkipped(tag: string, x: string, st: Extraction)
    requires TagRole(tag) == HeadingRole || TagRole(tag) == ParagraphRole
    requires !st.inBody
    ensures Run(PreOrder(Element(tag, [Text(x)])), st) == st
  {
    RunOfTextElement(tag, x, st);
  }

  lemma RunOfHeading(tag: string, x: string, st: Extraction)
    requires TagRole(tag) == HeadingRole && st.inBody
    ensures Run(PreOrder(Element(tag, [Text(x)])), st)
         == st.(text := st.text + ("\n[yellow::b]" + TrimSpace(x) + "[-::-]\n"))
  {
    RunOfTextElement(tag, x, st);
    InnerTextOfText(tag, x);
  }

  lemma RunOfParagraph(tag: string, x: string, st: Extraction)
    requires TagRole(tag) == ParagraphRole && st.inBody
    ensures Run(PreOrder(Element(tag, [Text(x)])), st)
         == st.(text := st.text + ("\n" + TrimSpace(x) + "\n"))
  {
    RunOfTextElement(tag, x, st);
    InnerTextOfText(tag, x);
  }

  lemma PageOfRun(doc: Node, title: string, text: string)
    requires Run(PreOrder(doc), Start) == Extraction(title, true, text)
             || Run(PreOrder(doc), Start) == Extraction(title, false, text)
    ensures PageText(doc) == "[green::b]Title: " + title + "[-::-]\n\n" + text
  {
    RunIsReference(PreOrder(doc), Start);
    assert "" + BodyText(doc) == BodyText(doc);
  }

  // Documents, for any text in their text nodes. Each walk is evaluated
  // first, and the page follows from it.

  lemma WalkHeadWithTitle(t: string, st: Extraction)
    ensures Run(PreOrder(Element("head", [Element("title", [Text(t)])])), st) == st.(title := TrimSpace(t))
  {
    var te := Element("title", [Text(t)]);
    assert Run(PreOrder(Element("head", [te])), st) == Run(PreOrder(te), st) by {
      assert TagRole("head") == NoRole;
      RunOfWrapperOne("head", te, st);
    }
    RunOfTitle(t, st);
  }

  lemma WalkBodyHeadingParagraph(h: string, p: string, st: Extraction)
    ensures Run(PreOrder(Element("body", [Element("h1", [Text(h)]), Element("p", [Text(p)])])), st)
         == st.(inBody := true,
                text := st.text + ("\n[yellow::b]" + TrimSpace(h) + "[-::-]\n") + ("\n" + TrimSpace(p) + "\n"))
  {
    var he, pe := Element("h1", [Text(h)]), Element("p", [Text(p)]);
    var s1 := st.(inBody := true);
    var s2 := s1.(text := s1.text + ("\n[yellow::b]" + TrimSpace(h) + "[-::-]\n"));
    assert Run(PreOrder(Element("body", [he, pe])), st) == Run(PreOrder(pe), Run(PreOrder(he), s1)) by {
      RunOfBodyTwo(he, pe, st);
    }
    assert Run(PreOrder(he), s1) == s2 by {
      assert TagRole("h1") == HeadingRole;
      RunOfHeading("h1", h, s1);
    }
    assert TagRole("p") == ParagraphRole;
    RunOfParagraph("p", p, s2);
  }

  lemma WalkTitleHeadingParagraph(t: string, h: string, p: string)
    ensures Run(PreOrder(Element("html", [
              Element("head", [Element("title", [Text(t)])]),
              Element("body", [Element("h1", [Text(h)]), Element("p", [Text(p)])])])), Start)
         == Extraction(TrimSpace(t), true,
                       ("\n[yellow::b]" + TrimSpace(h) + "[-::-]\n") + ("\n" + TrimSpace(p) + "\n"))
  {
    var head := Element("head", [Element("title", [Text(t)])]);
    var body := Element("body", [Element("h1", [Text(h)]), Element("p", [Text(p)])]);
    var segH := "\n[yellow::b]" + TrimSpace(h) + "[-::-]\n";
    var segP := "\n" + TrimSpace(p) + "\n";
    var s1 := Extraction(TrimSpace(t), false, "");
    assert Run(PreOrder(Element("html", [head, body])), Start) == Run(PreOrder(body), Run(PreOrder(head), Start)) by {
      assert TagRole("html") == NoRole;
      RunOfWrapperTwo("html", head, body, Start);
    }
    assert Run(PreOrder(head), Start) == s1 by {
      WalkHeadWithTitle(t, Start);
    }
    assert Run(PreOrder(body), s1) == Extraction(TrimSpace(t), true, "" + segH + segP) by {
      WalkBodyHeadingParagraph(h, p, s1);
    }
    assert "" + segH + segP == segH + segP;
  }

  /** <html><head><title>t</title></head><body><h1>h</h1><p>p</p></body></html>
      shows t as the title, then h as a heading, then p as a paragraph,
      each trimmed. */
  lemma TitleHeadingParagraph(t: string, h: string, p: string)
    ensures PageText(Element("html", [
              Element("head", [Element("title", [Text(t)])]),
              Element("body", [Element("h1", [Text(h)]), Element("p", [Text(p)])])]))
         == "[green::b]Title: " + TrimSpace(t) + "[-::-]\n\n"
          + ("\n[yellow::b]" + TrimSpace(h) + "[-::-]\n") + ("\n" + TrimSpace(p) + "\n")
  {
    var segH := "\n[yellow::b]" + TrimSpace(h) + "[-::-]\n";
    var segP := "\n" + TrimSpace(p) + "\n";
    var doc := Element("html", [
              Element("head", [Element("title", [Text(t)])]),
              Element("body", [Element("h1", [Text(h)]), Element("p", [Text(p)])])]);
    assert PageText(doc) == "[green::b]Title: " + TrimSpace(t) + "[-::-]\n\n" + (segH + segP) by {
      WalkTitleHeadingParagraph(t, h, p);
      PageOfRun(doc, TrimSpace(t), segH + segP);
    }
    ConcatAssoc("[green::b]Title: " + TrimSpace(t) + "[-::-]\n\n", segH, segP);
  }

  lemma WalkParagraphInHead(x: string)
    ensures Run(PreOrder(Element("html", [Element("head", [Element("p", [Text(x)])]), Element("body", [])])), Start)
         == Extraction("", true, "")
  {
    var pe := Element("p", [Text(x)]);
    var head := Element("head", [pe]);
    assert Run(PreOrder(Element("html", [head, Element("body", [])])), Start)
        == Run(PreOrder(Element("body", [])), Run(PreOrder(head), Start)) by {
      assert TagRole("html") == NoRole;
      RunOfWrapperTwo("html", head, Element("body", []), Start);
    }
    assert Run(PreOrder(head), Start) == Start by {
      assert TagRole("head") == NoRole && TagRole("p") == ParagraphRole;
      RunOfWrapperOne("head", pe, Start);
      RunOfSkipped("p", x, Start);
    }
    RunOfBodyNone(Start);
  }

  /** A paragraph in the head, before any body element, is not shown. */
  lemma ParagraphInHeadSuppressed(x: string)
    ensures PageText(Element("html", [Element("head", [Element("p", [Text(x)])]), Element("body", [])]))
         == "[green::b]Title: [-::-]\n\n"
  {
    WalkParagraphInHead(x);
    PageOfRun(Element("html", [Element("head", [Element("p", [Text(x)])]), Element("body", [])]), "", "");
  }

  lemma WalkParagraphAfterBody(x: string)
    ensures Run(PreOrder(Element("html", [Element("body", []), Element("p", [Text(x)])])), Start)
         == Extraction("", true, "\n" + TrimSpace(x) + "\n")
  {
    var pe := Element("p", [Text(x)]);
    var seg := "\n" + TrimSpace(x) + "\n";
    var s1 := Extraction("", true, "");
    assert Run(PreOrder(Element("html", [Element("body", []), pe])), Start)
        == Run(PreOrder(pe), Run(PreOrder(Element("body", [])), Start)) by {
      assert TagRole("html") == NoRole;
      RunOfWrapperTwo("html", Element("body", []), pe, Start);
    }
    assert Run(PreOrder(Element("body", [])), Start) == s1 by {
      RunOfBodyNone(Start);
    }
    assert Run(PreOrder(pe), s1) == Extraction("", true, "" + seg) by {
      assert TagRole("p") == ParagraphRole;
      RunOfParagraph("p", x, s1);
    }
    assert "" + seg == seg;
  }

  /** The flag is never reset: a paragraph after the body element has
      closed is still shown. */
  lemma ParagraphAfterBodyShown(x: string)
    ensures PageText(Element("html", [Element("body", []), Element("p", [Text(x)])]))
         == "[green::b]Title: [-::-]\n\n" + ("\n" + TrimSpace(x) + "\n")
  {
    WalkParagraphAfterBody(x);
    PageOfRun(Element("html", [Element("body", []), Element("p", [Text(x)])]), "", "\n" + TrimSpace(x) + "\n");
  }

  lemma WalkHeadingInParagraph(x: string)
    ensures Run(PreOrder(Element("body", [Element("p", [Element("h1", [Text(x)])])])), Start)
         == Extraction("", true, ("\n" + TrimSpace(x) + "\n") + ("\n[yellow::b]" + TrimSpace(x) + "[-::-]\n"))
  {
    var he := Element("h1", [Text(x)]);
    var pe := Element("p", [he]);
    var segP := "\n" + TrimSpace(x) + "\n";
    var s1 := Extraction("", true, "");
    var s2 := Extraction("", true, segP);
    assert Run(PreOrder(Element("body", [pe])), Start) == Run(PreOrder(pe), s1) by {
      RunOfBodyOne(pe, Start);
    }
    assert Visit(pe, s1) == s2 by {
      assert TagRole("p") == ParagraphRole;
      InnerTextOfText("h1", x);
      InnerTextOfOnlyElement("p", he);
      assert "" + segP == segP;
    }
    assert Run(PreOrder(pe), s1) == Run(PreOrder(he), s2) by {
      RunOfPreOrder(pe, s1);
      RunChildrenOne(he, s2);
    }
    assert TagRole("h1") == HeadingRole;
    RunOfHeading("h1", x, s2);
  }

  /** A heading inside a paragraph is written twice: first within the
      paragraph's flattened text, then as a heading of its own. */
  lemma HeadingInParagraphTwice(x: string)
    ensures PageText(Element("body", [Element("p", [Element("h1", [Text(x)])])]))
         == "[green::b]Title: [-::-]\n\n"
          + ("\n" + TrimSpace(x) + "\n") + ("\n[yellow::b]" + TrimSpace(x) + "[-::-]\n")
  {
    var segP := "\n" + TrimSpace(x) + "\n";
    var segH := "\n[yellow::b]" + TrimSpace(x) + "[-::-]\n";
    var doc := Element("body", [Element("p", [Element("h1", [Text(x)])])]);
    assert PageText(doc) == "[green::b]Title: [-::-]\n\n" + (segP + segH) by {
      WalkHeadingInParagraph(x);
      PageOfRun(doc, "", segP + segH);
    }
    ConcatAssoc("[green::b]Title: [-::-]\n\n", segP, segH);
  }

  /** Two titles: the later one is displayed. */
  lemma LaterTitleWins(a: string, b: string)
    ensures DocTitle(Element("head", [Element("title", [Text(a)]), Element("title", [Text(b)])])) == TrimSpace(b)
  {
    var ta := Element("title", [Text(a)]);
    var tb := Element("title", [Text(b)]);
    var head := Element("head", [ta, tb]);
    assert Run(PreOrder(head), Start) == Run(PreOrder(tb), Run(PreOrder(ta), Start)) by {
      assert TagRole("head") == NoRole;
      RunOfWrapperTwo("head", ta, tb, Start);
    }
    RunOfTitle(a, Start);
    RunOfTitle(b, Start.(title := TrimSpace(a)));
    RunIsReference(PreOrder(head), Start);
  }

  /** An empty title element gives an empty title. */
  lemma EmptyTitle()
    ensures DocTitle(Element("head", [Element("title", [])])) == ""
  {
    var te := Element("title", []);
    assert Run(PreOrder(Element("head", [te])), Start) == Start by {
      assert TagRole("head") == NoRole && TagRole("title") == TitleRole;
      RunOfWrapperOne("head", te, Start);
      RunOfPreOrder(te, Start);
    }
    RunIsReference(PreOrder(Element("head", [te])), Start);
  }
}
