/** What an emitted pattern says: its text reads back as the intended tree, and
    the tree matches a path exactly when the template does, segment by segment. */
module RoutePattern {
  import opened Text
  import opened Regex
  import opened RouteTemplate

  // ----- the intended tree -----

  function LiteralNodes(s: string): seq<Node> {
    if s == "" then [] else [One(Exactly(s[0]))] + LiteralNodes(s[1..])
  }

  function SegmentNodes(segment: string): seq<Node> {
    if StartsWith(segment, ":") then [Many(NotSlash, 1)]
    else if segment == "*" then [Many(NotLineTerminator, 0)]
    else LiteralNodes(segment)
  }

  function TemplateNodes(segments: seq<string>): seq<Node> {
    if segments == [] then []
    else [One(Exactly('/'))] + (SegmentNodes(segments[0]) + TemplateNodes(segments[1..]))
  }

  function Chain(nodes: seq<Node>): Node {
    if nodes == [] then Empty else Cat(nodes[0], Chain(nodes[1..]))
  }

  function Alternatives(lists: seq<seq<Node>>, first: nat): Node
    requires lists != []
  {
    var head := Cat(Group(first, Chain(lists[0])), Empty);
    if |lists| == 1 then head else Alt(head, Alternatives(lists[1..], first + 1))
  }

  function Tree(lists: seq<seq<Node>>): Node
    requires lists != []
  {
    Cat(Start, Cat(Alternatives(lists, 1), Cat(End, Empty)))
  }

  // ----- the text reads back as the tree -----

  predicate Plain(node: Node) {
    (node.One? && node.chars.Exactly?) || node == Many(NotSlash, 1) || node == Many(NotLineTerminator, 0)
  }

  ghost predicate AllPlain(nodes: seq<Node>) {
    forall i :: 0 <= i < |nodes| ==> Plain(nodes[i])
  }

  function Render(nodes: seq<Node>): string {
    if nodes == [] then ""
    else RenderNode(nodes[0]) + Render(nodes[1..])
  }

  function RenderNode(node: Node): string {
    match node
    case One(Exactly(c)) => Quote(c)
    case Many(NotSlash, _) => "[^/]+"
    case _ => ".*"
  }

  lemma {:induction false} RenderAppend(a: seq<Node>, b: seq<Node>)
    ensures Render(a + b) == Render(a) + Render(b)
  {
    hide RenderNode;
    if a == [] {
      assert a + b == b;
    } else {
      RenderAppend(a[1..], b);
      assert (a + b)[1..] == a[1..] + b;
      Associative(RenderNode(a[0]), Render(a[1..]), Render(b));
    }
  }

  lemma {:induction false} LiteralRenders(s: string)
    ensures AllPlain(LiteralNodes(s)) && Render(LiteralNodes(s)) == QuoteMeta(s)
  {
    if s != "" {
      LiteralRenders(s[1..]);
      assert LiteralNodes(s)[1..] == LiteralNodes(s[1..]);
    }
  }

  lemma SegmentRenders(segment: string, final: bool)
    requires SegmentText(segment, final).Ok?
    ensures AllPlain(SegmentNodes(segment)) && SegmentText(segment, final).value == Render(SegmentNodes(segment))
  {
    var body := SegmentNodes(segment);
    if StartsWith(segment, ":") || segment == "*" {
      assert Render(body) == RenderNode(body[0]) + Render(body[1..]);
    } else {
      LiteralRenders(segment);
    }
  }

  lemma PlainSlash(body: seq<Node>, rest: seq<Node>)
    requires AllPlain(body) && AllPlain(rest)
    ensures AllPlain([One(Exactly('/'))] + (body + rest))
  {
  }

  lemma RenderCons(node: Node, rest: seq<Node>)
    ensures Render([node] + rest) == RenderNode(node) + Render(rest)
  {
    hide RenderNode;
    assert ([node] + rest)[1..] == rest;
  }

  lemma SlashRenders()
    ensures RenderNode(One(Exactly('/'))) == "/"
  {
  }

  lemma RenderSlash(body: seq<Node>, rest: seq<Node>)
    ensures Render([One(Exactly('/'))] + (body + rest)) == "/" + Render(body) + Render(rest)
  {
    hide Render, RenderNode;
    RenderCons(One(Exactly('/')), body + rest);
    SlashRenders();
    RenderAppend(body, rest);
    assert "/" + (Render(body) + Render(rest)) == "/" + Render(body) + Render(rest);
  }

  lemma {:induction false} TemplateRenders(segments: seq<string>)
    requires SegmentsText(segments).Ok?
    ensures AllPlain(TemplateNodes(segments))
    ensures SegmentsText(segments).value == Render(TemplateNodes(segments))
  {
    if segments != [] {
      var body, rest := SegmentNodes(segments[0]), TemplateNodes(segments[1..]);
      TemplateRenders(segments[1..]);
      SegmentRenders(segments[0], |segments| == 1);
      RenderSlash(body, rest);
      PlainSlash(body, rest);
    }
  }

  /** What follows an atom never looks like a quantifier. */
  predicate Fence(t: string) {
    t != "" && t[0] !in "*+?{"
  }

  lemma RenderFence(nodes: seq<Node>, tail: string)
    requires AllPlain(nodes) && Fence(tail)
    ensures Fence(Render(nodes) + tail)
  {
    if nodes != [] {
      assert Plain(nodes[0]);
      var t := Render(nodes) + tail;
      assert t[0] == RenderNode(nodes[0])[0];
    }
  }

  lemma OtherStart(t: string, prefix: string)
    requires t != "" && prefix != "" && t[0] != prefix[0]
    ensures !StartsWith(t, prefix)
  {
  }

  /** A term that opens no group and no anchor is a set of characters and a quantifier. */
  lemma SetTerm(t: string, chars: CharSet, rest: string, groups: nat)
    requires t != "" && t[0] !in "^$(" && ReadCharSet(t) == Some((chars, rest))
    ensures ReadTerm(t, groups) == ReadQuantifier(chars, rest, groups)
  {
    hide ReadCharSet, ReadQuantifier, ReadDisjunction, ReadClosing;
    OtherStart(t, "(?:");
    OtherStart(t, "(?");
  }

  lemma ReadLiteral(c: char, tail: string, groups: nat)
    requires Fence(tail)
    ensures ReadTerm(Quote(c) + tail, groups) == Read(One(Exactly(c)), tail, groups)
  {
    hide ReadTerm;
    var t := Quote(c) + tail;
    if IsSyntax(c) {
      assert t[0] == '\\' && t[1] == c && t[2..] == tail;
    } else {
      assert t[0] == c && t[1..] == tail;
      assert !StartsWith(t, "[^/]");
    }
    SetTerm(t, Exactly(c), tail, groups);
  }

  lemma ReadRepeated(setText: string, chars: CharSet, mark: char, tail: string, groups: nat)
    requires (setText == "[^/]" && chars == NotSlash) || (setText == "." && chars == NotLineTerminator)
    requires (mark == '*' || mark == '+') && Fence(tail)
    ensures ReadTerm(setText + [mark] + tail, groups) == Read(Many(chars, if mark == '+' then 1 else 0), tail, groups)
  {
    hide ReadTerm;
    var t := setText + [mark] + tail;
    assert t[..|setText|] == setText && t[|setText|..] == [mark] + tail;
    assert t[0] == setText[0];
    SetTerm(t, chars, [mark] + tail, groups);
    assert ([mark] + tail)[1..] == tail;
  }

  /** One atom is read as exactly one node, whatever character it stands for. */
  lemma ReadAtom(node: Node, tail: string, groups: nat)
    requires Plain(node) && Fence(tail)
    ensures ReadTerm(RenderNode(node) + tail, groups) == Read(node, tail, groups)
  {
    hide ReadTerm, Fence;
    if node.One? {
      ReadLiteral(node.chars.c, tail, groups);
    } else if node.chars.NotSlash? {
      assert "[^/]+" == "[^/]" + ['+'];
      ReadRepeated("[^/]", NotSlash, '+', tail, groups);
    } else {
      assert ".*" == "." + ['*'];
      ReadRepeated(".", NotLineTerminator, '*', tail, groups);
    }
  }

  lemma AlternativeStep(t: string, groups: nat, first: Node, rest: string)
    requires t != "" && t[0] !in "|)" && ReadTerm(t, groups) == Read(first, rest, groups)
    requires ReadAlternative(rest, groups).Read?
    ensures var others := ReadAlternative(rest, groups);
      ReadAlternative(t, groups) == Read(Cat(first, others.node), others.rest, others.groups)
  {
    hide ReadTerm;
  }

  lemma AtomStarts(node: Node, tail: string)
    requires Plain(node)
    ensures var t := RenderNode(node) + tail; t != "" && t[0] !in "|)"
  {
  }

  lemma {:induction false} ReadNodes(nodes: seq<Node>, tail: string, groups: nat)
    requires AllPlain(nodes) && tail != "" && tail[0] == ')'
    ensures ReadAlternative(Render(nodes) + tail, groups) == Read(Chain(nodes), tail, groups)
  {
    hide ReadTerm, RenderNode, Plain;
    if nodes == [] {
      assert Render(nodes) + tail == tail;
    } else {
      hide ReadAlternative;
      var others := Render(nodes[1..]) + tail;
      assert Plain(nodes[0]);
      RenderFence(nodes[1..], tail);
      ReadAtom(nodes[0], others, groups);
      ReadNodes(nodes[1..], tail, groups);
      assert Render(nodes) + tail == RenderNode(nodes[0]) + others;
      AtomStarts(nodes[0], others);
      AlternativeStep(Render(nodes) + tail, groups, nodes[0], others);
    }
  }

  /** A parenthesised template opens exactly one group, whatever it contains. */
  lemma ReadGroup(nodes: seq<Node>, tail: string, groups: nat)
    requires AllPlain(nodes) && nodes != []
    ensures ReadTerm("(" + Render(nodes) + ")" + tail, groups)
         == Read(Group(groups + 1, Chain(nodes)), tail, groups + 1)
  {
    hide Render;
    var inner := Render(nodes) + (")" + tail);
    var t := "(" + Render(nodes) + ")" + tail;
    assert t == "(" + inner;
    assert t[1..] == inner;
    RenderFence(nodes, ")" + tail);
    assert t[1] == inner[0];
    assert !StartsWith(t, "(?:") && !StartsWith(t, "(?");
    ReadNodes(nodes, ")" + tail, groups + 1);
    assert (")" + tail)[1..] == tail;
  }

  ghost predicate RenderedBy(texts: seq<string>, lists: seq<seq<Node>>) {
    && |texts| == |lists|
    && forall i :: 0 <= i < |lists| ==> lists[i] != [] && AllPlain(lists[i]) && texts[i] == Render(lists[i])
  }

  lemma {:induction false} ReadAlternatives(texts: seq<string>, lists: seq<seq<Node>>, tail: string, groups: nat)
    requires RenderedBy(texts, lists) && lists != []
    requires tail != "" && tail[0] == ')'
    ensures ReadDisjunction(Join(Parenthesized(texts), "|") + tail, groups)
         == Read(Alternatives(lists, groups + 1), tail, groups + |lists|)
  {
    hide Render, ReadQuantifier, ReadCharSet, ReadTerm;
    var t := Join(Parenthesized(texts), "|") + tail;
    var head := "(" + Render(lists[0]) + ")";
    if |lists| == 1 {
      assert t == head + tail;
      ReadGroup(lists[0], tail, groups);
      assert ReadAlternative(tail, groups + 1) == Read(Empty, tail, groups + 1);
    } else {
      var others := Join(Parenthesized(texts[1..]), "|") + tail;
      assert Parenthesized(texts)[1..] == Parenthesized(texts[1..]);
      assert t == head + ("|" + others);
      ReadGroup(lists[0], "|" + others, groups);
      assert ReadAlternative("|" + others, groups + 1) == Read(Empty, "|" + others, groups + 1);
      assert ("|" + others)[1..] == others;
      ReadAlternatives(texts[1..], lists[1..], tail, groups + 1);
    }
  }

  /** The emitted text is read as exactly the intended tree: group i + 1 is
      template i, and there are as many groups as templates. */
  lemma CombinedReadsBack(texts: seq<string>, lists: seq<seq<Node>>)
    requires RenderedBy(texts, lists) && lists != []
    ensures ReadPattern(Combined(texts)) == Some(Pattern(Tree(lists), |lists|))
  {
    hide RenderedBy, Join, Alternatives;
    var join := Join(Parenthesized(texts), "|");
    var t := Combined(texts);
    var t1 := "(?:" + join + ")$";
    var t3 := join + ")$";
    assert t[0] == '^' && t[1..] == t1;
    assert t1[..3] == "(?:" && t1[3..] == t3;
    ReadAlternatives(texts, lists, ")$", 0);
    assert ")$"[1..] == "$";
    assert "$"[1..] == "";
    var D := Alternatives(lists, 1);
    assert ReadAlternative("", |lists|) == Read(Empty, "", |lists|);
    assert ReadAlternative("$", |lists|) == Read(Cat(End, Empty), "", |lists|);
    assert ReadTerm(t1, 0) == Read(D, "$", |lists|);
    assert t1[0] == '(';
    assert ReadAlternative(t1, 0) == Read(Cat(D, Cat(End, Empty)), "", |lists|);
    assert ReadTerm(t, 0) == Read(Start, t1, 0);
    assert ReadAlternative(t, 0) == Read(Tree(lists), "", |lists|);
  }
}
