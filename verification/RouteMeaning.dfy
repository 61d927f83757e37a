/** What a template means, and the proof that the pattern tree means the same. */
module RouteMeaning {
  import opened Text
  import opened Regex
  import opened RouteTemplate
  import opened RoutePattern

  // ----- the reference meaning: slash-separated segments -----

  predicate OnOneLine(s: string) {
    forall c :: c in s ==> !IsLineTerminator(c)
  }

  predicate SegmentMatches(template: string, actual: string) {
    if StartsWith(template, ":") then actual != "" else template == actual
  }

  /** Literals are equal, `:name` is one non-empty segment, and a final `*` is
      any remainder, slashes included, as long as it holds no line terminator. */
  predicate SegmentsMatch(template: seq<string>, actual: seq<string>) {
    if template == [] || actual == [] then template == [] && actual == []
    else if template == ["*"] then forall piece :: piece in actual ==> OnOneLine(piece)
    else SegmentMatches(template[0], actual[0]) && SegmentsMatch(template[1..], actual[1..])
  }

  predicate TemplateMatches(template: string, path: string) {
    StartsWith(path, "/") && SegmentsMatch(Segments(template), Split(path[1..], '/'))
  }

  /** The meaning in which a final `*` is any remainder whatever. */
  predicate SegmentsMatchAnyLine(template: seq<string>, actual: seq<string>) {
    if template == [] || actual == [] then template == [] && actual == []
    else template == ["*"] || (SegmentMatches(template[0], actual[0]) && SegmentsMatchAnyLine(template[1..], actual[1..]))
  }

  predicate RemainderOnOneLine(template: seq<string>, actual: seq<string>) {
    template != [] && template[|template| - 1] == "*" ==>
      forall i :: |template| - 1 <= i < |actual| ==> OnOneLine(actual[i])
  }

  lemma {:induction false} RemainderDecides(template: seq<string>, actual: seq<string>)
    ensures SegmentsMatch(template, actual) <==>
      SegmentsMatchAnyLine(template, actual) && RemainderOnOneLine(template, actual)
  {
    if template != [] && actual != [] {
      if template == ["*"] {
        assert forall i :: 0 <= i < |actual| ==> actual[i] in actual;
      } else {
        RemainderDecides(template[1..], actual[1..]);
        assert forall i :: 1 <= i < |actual| ==> actual[1..][i - 1] == actual[i];
      }
    }
  }

  lemma {:induction false} SplitKeepsLines(s: string)
    ensures OnOneLine(s) <==> forall piece :: piece in Split(s, '/') ==> OnOneLine(piece)
  {
    var pieces := Split(s, '/');
    if s == "" {
      assert pieces == [""];
    } else {
      var rest := Split(s[1..], '/');
      SplitKeepsLines(s[1..]);
      assert s == [s[0]] + s[1..];
      assert rest == [rest[0]] + rest[1..];
      if s[0] == '/' {
        assert pieces == [""] + rest;
        assert forall piece :: piece in pieces <==> piece == "" || piece in rest;
      } else {
        assert pieces == [[s[0]] + rest[0]] + rest[1..];
        assert OnOneLine([s[0]] + rest[0]) <==> !IsLineTerminator(s[0]) && OnOneLine(rest[0]);
        assert forall piece :: piece in pieces <==> piece == [s[0]] + rest[0] || piece in rest[1..];
        assert forall piece :: piece in rest <==> piece == rest[0] || piece in rest[1..];
      }
    }
  }

  // ----- what a chain of atoms accepts -----

  ghost predicate Accepts(nodes: seq<Node>, s: string, pos: nat)
    decreases |nodes|, 0
  {
    if nodes == [] then pos == |s|
    else match nodes[0]
      case One(chars) => pos < |s| && Admits(chars, s[pos]) && Accepts(nodes[1..], s, pos + 1)
      case Many(chars, least) =>
        AcceptsWithin(nodes[1..], s, pos + least, pos + RunLength(chars, s, pos))
      case _ => false
  }

  ghost predicate AcceptsWithin(nodes: seq<Node>, s: string, low: nat, high: nat)
    decreases |nodes|, 1
  {
    exists q: nat :: low <= q <= high && Accepts(nodes, s, q)
  }

  lemma AcceptedPosition(nodes: seq<Node>, s: string, low: nat, high: nat) returns (q: nat)
    requires AcceptsWithin(nodes, s, low, high)
    ensures low <= q <= high && Accepts(nodes, s, q)
  {
    q :| low <= q <= high && Accepts(nodes, s, q);
  }

  ghost predicate ReachesEnd(ts: seq<Thread>, end: nat) {
    exists t :: t in ts && t.pos == end
  }

  lemma {:induction false} OutcomesAllMember(node: Node, s: string, ts: seq<Thread>, o: Thread)
    ensures o in OutcomesAll(node, s, ts) <==> exists t :: t in ts && o in Outcomes(node, s, t)
  {
    if ts != [] {
      OutcomesAllMember(node, s, ts[1..], o);
      if o in Outcomes(node, s, ts[0]) {
        assert ts[0] in ts;
      }
      if t :| t in ts && o in Outcomes(node, s, t) {
        assert t == ts[0] || t in ts[1..];
      }
    }
  }

  lemma {:induction false} DescendMember(t: Thread, most: nat, least: nat, o: Thread)
    ensures o in Descend(t, most, least) <==>
      least <= o.pos - t.pos <= most && o.captures == t.captures
  {
    if most >= least && most > 0 {
      DescendMember(t, most - 1, least, o);
    }
  }

  lemma ChainStep(nodes: seq<Node>, s: string, t: Thread, o: Thread)
    requires nodes != []
    ensures o in Outcomes(Chain(nodes), s, t) <==>
      exists m :: m in Outcomes(nodes[0], s, t) && o in Outcomes(Chain(nodes[1..]), s, m)
  {
    assert Chain(nodes) == Cat(nodes[0], Chain(nodes[1..]));
    OutcomesAllMember(Chain(nodes[1..]), s, Outcomes(nodes[0], s, t), o);
  }

  /** Template atoms open no group. */
  lemma {:induction false} ChainKeepsCaptures(nodes: seq<Node>, s: string, t: Thread, o: Thread)
    requires AllPlain(nodes) && o in Outcomes(Chain(nodes), s, t)
    ensures o.captures == t.captures
  {
    if nodes != [] {
      ChainStep(nodes, s, t, o);
      assert Plain(nodes[0]);
      var m :| m in Outcomes(nodes[0], s, t) && o in Outcomes(Chain(nodes[1..]), s, m);
      if nodes[0].Many? {
        DescendMember(t, RunLength(nodes[0].chars, s, t.pos), nodes[0].atLeast, m);
      }
      ChainKeepsCaptures(nodes[1..], s, m, o);
    }
  }

  lemma {:induction false} ChainAccepts(nodes: seq<Node>, s: string, t: Thread)
    requires AllPlain(nodes)
    ensures ReachesEnd(Outcomes(Chain(nodes), s, t), |s|) <==> Accepts(nodes, s, t.pos)
    decreases |nodes|, 1
  {
    if nodes == [] {
      assert t in Outcomes(Chain(nodes), s, t);
    } else {
      if ReachesEnd(Outcomes(Chain(nodes), s, t), |s|) {
        ChainReachesThenAccepts(nodes, s, t);
      }
      if Accepts(nodes, s, t.pos) {
        ChainAcceptsThenReaches(nodes, s, t);
      }
    }
  }

  lemma {:induction false} ChainReachesThenAccepts(nodes: seq<Node>, s: string, t: Thread)
    requires nodes != [] && AllPlain(nodes) && ReachesEnd(Outcomes(Chain(nodes), s, t), |s|)
    ensures Accepts(nodes, s, t.pos)
    decreases |nodes|, 0
  {
    hide Chain;
    var rest := nodes[1..];
    assert Plain(nodes[0]);
    var o :| o in Outcomes(Chain(nodes), s, t) && o.pos == |s|;
    ChainStep(nodes, s, t, o);
    var m :| m in Outcomes(nodes[0], s, t) && o in Outcomes(Chain(rest), s, m);
    ChainAccepts(rest, s, m);
    if nodes[0].Many? {
      DescendMember(t, RunLength(nodes[0].chars, s, t.pos), nodes[0].atLeast, m);
    }
  }

  lemma {:induction false} ChainAcceptsThenReaches(nodes: seq<Node>, s: string, t: Thread)
    requires nodes != [] && AllPlain(nodes) && Accepts(nodes, s, t.pos)
    ensures ReachesEnd(Outcomes(Chain(nodes), s, t), |s|)
    decreases |nodes|, 0
  {
    var rest := nodes[1..];
    assert Plain(nodes[0]);
    var q := t.pos + 1;
    if nodes[0].Many? {
      var most, least := RunLength(nodes[0].chars, s, t.pos), nodes[0].atLeast;
      q := AcceptedPosition(rest, s, t.pos + least, t.pos + most);
      DescendMember(t, most, least, t.(pos := q));
    }
    var m := t.(pos := q);
    ChainAccepts(rest, s, m);
    var o :| o in Outcomes(Chain(rest), s, m) && o.pos == |s|;
    assert m in Outcomes(nodes[0], s, t);
    ChainStep(nodes, s, t, o);
  }

  // ----- a chain of template atoms accepts exactly what the template means -----

  lemma SplitHead(c: char, rest: string)
    ensures var parts, later := Split([c] + rest, '/'), Split(rest, '/');
      if c == '/' then parts[0] == "" && parts[1..] == later
      else parts[0] == [c] + later[0] && parts[1..] == later[1..]
  {
    assert ([c] + rest)[1..] == rest;
  }

  lemma RunHead(s: string, p: nat)
    requires p <= |s|
    ensures RunLength(NotSlash, s, p) == if p == |s| || s[p] == '/' then 0 else 1 + RunLength(NotSlash, s, p + 1)
  {
  }

  lemma {:induction false} RunBounds(s: string, p: nat)
    requires p <= |s|
    ensures var n := RunLength(NotSlash, s, p);
      && p + n <= |s| && (p + n < |s| ==> s[p + n] == '/')
      && (forall q :: p <= q < p + n ==> s[q] != '/')
    decreases |s| - p
  {
    RunHead(s, p);
    if p < |s| && s[p] != '/' {
      RunBounds(s, p + 1);
    }
  }

  /** The first piece of a split ends where the run of other characters ends. */
  lemma {:induction false} FirstSegment(s: string, p: nat)
    requires p <= |s|
    ensures var n := RunLength(NotSlash, s, p); var parts := Split(s[p..], '/');
      && p + n <= |s|
      && parts[0] == s[p..p + n]
      && parts[1..] == if p + n < |s| then Split(s[p + n + 1..], '/') else []
    decreases |s| - p
  {
    RunHead(s, p);
    RunBounds(s, p);
    if p < |s| {
      hide Split, RunLength;
      var rest := s[p + 1..];
      SplitHead(s[p], rest);
      assert s[p..] == [s[p]] + rest;
      if s[p] == '/' {
        assert s[p..p] == "";
      } else {
        FirstSegment(s, p + 1);
        var n := RunLength(NotSlash, s, p + 1);
        HeadSlice(s, p, p + 1 + n);
      }
    } else {
      assert s[p..] == "";
    }
  }

  lemma HeadSlice(s: string, from: nat, upto: nat)
    requires from < upto <= |s|
    ensures s[from..upto] == [s[from]] + s[from + 1..upto]
  {
  }

  lemma {:induction false} LiteralAccepts(text: string, rest: seq<Node>, s: string, p: nat)
    requires p <= |s|
    ensures Accepts(LiteralNodes(text) + rest, s, p) <==>
      p + |text| <= |s| && s[p..p + |text|] == text && Accepts(rest, s, p + |text|)
  {
    var nodes := LiteralNodes(text) + rest;
    if text == "" {
      assert nodes == rest;
    } else {
      assert nodes[0] == One(Exactly(text[0])) && nodes[1..] == LiteralNodes(text[1..]) + rest;
      if p < |s| {
        LiteralAccepts(text[1..], rest, s, p + 1);
        if p + |text| <= |s| {
          assert s[p..p + |text|] == [s[p]] + s[p + 1..p + 1 + |text[1..]|];
          assert text == [text[0]] + text[1..];
        }
      }
    }
  }

  lemma {:induction false} RunToEnd(s: string, p: nat)
    requires p <= |s|
    ensures p + RunLength(NotLineTerminator, s, p) <= |s|
    ensures p + RunLength(NotLineTerminator, s, p) == |s| <==> OnOneLine(s[p..])
    decreases |s| - p
  {
    if p < |s| {
      RunToEnd(s, p + 1);
      assert s[p..] == [s[p]] + s[p + 1..];
    } else {
      assert s[p..] == "";
    }
  }

  ghost predicate Compilable(segments: seq<string>) {
    SegmentsText(segments).Ok? && forall i :: 0 <= i < |segments| ==> '/' !in segments[i]
  }

  /** What the atoms of the remaining segments must find at position q. */
  ghost predicate RestMatches(segments: seq<string>, s: string, q: nat) {
    if segments == [] then q == |s|
    else q < |s| && s[q] == '/' && SegmentsMatch(segments, Split(s[q + 1..], '/'))
  }

  lemma {:induction false} TemplateAccepts(segments: seq<string>, s: string, pos: nat)
    requires Compilable(segments) && pos <= |s|
    ensures Accepts(TemplateNodes(segments), s, pos) <==> RestMatches(segments, s, pos)
  {
    if segments != [] {
      var nodes := TemplateNodes(segments);
      var tail := SegmentNodes(segments[0]) + TemplateNodes(segments[1..]);
      assert nodes[0] == One(Exactly('/')) && nodes[1..] == tail;
      if pos < |s| && s[pos] == '/' {
        forall q: nat | q <= |s|
          ensures Accepts(TemplateNodes(segments[1..]), s, q) <==> RestMatches(segments[1..], s, q)
        {
          TemplateAccepts(segments[1..], s, q);
        }
        SegmentAccepts(segments, s, pos + 1);
      }
    }
  }

  lemma SegmentAccepts(segments: seq<string>, s: string, p: nat)
    requires segments != [] && Compilable(segments) && p <= |s|
    requires forall q: nat :: q <= |s| ==>
      (Accepts(TemplateNodes(segments[1..]), s, q) <==> RestMatches(segments[1..], s, q))
    ensures Accepts(SegmentNodes(segments[0]) + TemplateNodes(segments[1..]), s, p)
      <==> SegmentsMatch(segments, Split(s[p..], '/'))
  {
    var n := RunLength(NotSlash, s, p);
    var parts := Split(s[p..], '/');
    var rest := TemplateNodes(segments[1..]);
    FirstSegment(s, p);
    RunBounds(s, p);
    assert OnlyAtBoundary(rest, s);
    assert Accepts(rest, s, p + n) <==> RestMatches(segments[1..], s, p + n);
    RestAfterSegment(segments[1..], s, p);
    if StartsWith(segments[0], ":") {
      ParameterAccepts(rest, s, p);
    } else if segments[0] == "*" {
      assert segments == ["*"];
      WildcardAccepts(rest, s, p);
    } else {
      LiteralSegmentAccepts(segments[0], rest, s, p);
    }
  }

  lemma RestAfterSegment(segments: seq<string>, s: string, p: nat)
    requires p <= |s|
    ensures RestMatches(segments, s, p + RunLength(NotSlash, s, p)) <==> SegmentsMatch(segments, Split(s[p..], '/')[1..])
  {
    FirstSegment(s, p);
    RunBounds(s, p);
  }

  /** Only the segment's end can be followed by what comes next. */
  ghost predicate OnlyAtBoundary(rest: seq<Node>, s: string) {
    forall q: nat :: q <= |s| && Accepts(rest, s, q) ==> q == |s| || s[q] == '/'
  }

  lemma ManyAccepts(chars: CharSet, least: nat, rest: seq<Node>, s: string, p: nat)
    ensures Accepts([Many(chars, least)] + rest, s, p) <==>
      AcceptsWithin(rest, s, p + least, p + RunLength(chars, s, p))
  {
    var nodes := [Many(chars, least)] + rest;
    assert nodes[0] == Many(chars, least) && nodes[1..] == rest;
  }

  lemma WildcardAccepts(rest: seq<Node>, s: string, p: nat)
    requires rest == [] && p <= |s|
    ensures Accepts([Many(NotLineTerminator, 0)] + rest, s, p) <==>
      forall piece :: piece in Split(s[p..], '/') ==> OnOneLine(piece)
  {
    var n := RunLength(NotLineTerminator, s, p);
    ManyAccepts(NotLineTerminator, 0, rest, s, p);
    RunToEnd(s, p);
    SplitKeepsLines(s[p..]);
    assert Accepts(rest, s, p + n) <==> p + n == |s|;
  }

  lemma BoundaryAccepts(rest: seq<Node>, s: string, p: nat, n: nat)
    requires OnlyAtBoundary(rest, s)
    requires p + n <= |s| && forall q :: p <= q < p + n ==> s[q] != '/'
    ensures AcceptsWithin(rest, s, p + 1, p + n) <==> n > 0 && Accepts(rest, s, p + n)
  {
    if AcceptsWithin(rest, s, p + 1, p + n) {
      var q := AcceptedPosition(rest, s, p + 1, p + n);
      assert q == p + n;
    }
  }

  lemma ParameterAccepts(rest: seq<Node>, s: string, p: nat)
    requires p <= |s| && OnlyAtBoundary(rest, s)
    ensures Accepts([Many(NotSlash, 1)] + rest, s, p) <==>
      Split(s[p..], '/')[0] != "" && Accepts(rest, s, p + RunLength(NotSlash, s, p))
  {
    hide Split, RunLength, Accepts;
    FirstSegment(s, p);
    RunBounds(s, p);
    ManyAccepts(NotSlash, 1, rest, s, p);
    BoundaryAccepts(rest, s, p, RunLength(NotSlash, s, p));
  }

  lemma LiteralSegmentAccepts(text: string, rest: seq<Node>, s: string, p: nat)
    requires p <= |s| && OnlyAtBoundary(rest, s) && '/' !in text
    ensures Accepts(LiteralNodes(text) + rest, s, p) <==>
      text == Split(s[p..], '/')[0] && Accepts(rest, s, p + RunLength(NotSlash, s, p))
  {
    hide Split;
    var n := RunLength(NotSlash, s, p);
    FirstSegment(s, p);
    RunBounds(s, p);
    LiteralAccepts(text, rest, s, p);
    if p + |text| <= |s| && s[p..p + |text|] == text && Accepts(rest, s, p + |text|) {
      assert forall q :: p <= q < p + |text| ==> s[q] == text[q - p] && s[q] in text;
      assert p + |text| == p + n;
    }
  }

  // ----- the whole pattern -----

  function AtEnd(ts: seq<Thread>, end: nat): seq<Thread> {
    if ts == [] then []
    else (if ts[0].pos == end then [ts[0]] else []) + AtEnd(ts[1..], end)
  }

  lemma {:induction false} AtEndAppend(a: seq<Thread>, b: seq<Thread>, end: nat)
    ensures AtEnd(a + b, end) == AtEnd(a, end) + AtEnd(b, end)
  {
    if a == [] {
      assert a + b == b;
    } else {
      AtEndAppend(a[1..], b, end);
      assert (a + b)[1..] == a[1..] + b;
      Associative(if a[0].pos == end then [a[0]] else [], AtEnd(a[1..], end), AtEnd(b, end));
    }
  }

  lemma {:induction false} AtEndMember(ts: seq<Thread>, end: nat)
    ensures forall t :: t in AtEnd(ts, end) <==> t in ts && t.pos == end
  {
    if ts != [] {
      AtEndMember(ts[1..], end);
      assert ts == [ts[0]] + ts[1..];
    }
  }

  lemma {:induction false} EndFilters(s: string, ts: seq<Thread>)
    ensures OutcomesAll(Cat(End, Empty), s, ts) == AtEnd(ts, |s|)
  {
    if ts != [] {
      EndFilters(s, ts[1..]);
      var here := Outcomes(End, s, ts[0]);
      assert Outcomes(Cat(End, Empty), s, ts[0]) == OutcomesAll(Empty, s, here);
      EmptyKeeps(s, here);
    }
  }

  lemma {:induction false} EmptyKeeps(s: string, ts: seq<Thread>)
    ensures OutcomesAll(Empty, s, ts) == ts
  {
    if ts != [] {
      EmptyKeeps(s, ts[1..]);
      assert ts == [ts[0]] + ts[1..];
    }
  }

  /** One group of the alternation: if its template accepts the whole path, then
      its best complete match captures the path under its own number and
      nothing else. */
  lemma GroupOutcome(nodes: seq<Node>, index: nat, s: string)
    requires AllPlain(nodes)
    ensures var found := AtEnd(Outcomes(Cat(Group(index, Chain(nodes)), Empty), s, Thread(0, map[])), |s|);
      if Accepts(nodes, s, 0) then found != [] && found[0] == Thread(|s|, map[index := Span(0, |s|)])
      else found == []
  {
    hide OutcomesAll, AtEnd, Plain;
    var t := Thread(0, map[]);
    var inner := Outcomes(Chain(nodes), s, t);
    var closed := Close(index, 0, inner);
    EmptyKeeps(s, closed);
    AtEndMember(closed, |s|);
    ChainAccepts(nodes, s, t);
    var found := AtEnd(closed, |s|);
    if o :| o in inner && o.pos == |s| {
      var i :| 0 <= i < |inner| && inner[i] == o;
      assert closed[i] in found;
    }
    if found != [] {
      assert found[0] in closed;
      var i :| 0 <= i < |closed| && closed[i] == found[0];
      assert inner[i] in inner && inner[i].pos == |s|;
      ChainKeepsCaptures(nodes, s, t, inner[i]);
    }
  }

  /** The first template in the list that accepts the path. */
  ghost predicate IsFirst(lists: seq<seq<Node>>, s: string, k: nat) {
    k < |lists| && Accepts(lists[k], s, 0) && forall i :: 0 <= i < k ==> !Accepts(lists[i], s, 0)
  }

  lemma {:induction false} AlternativesOutcome(lists: seq<seq<Node>>, index: nat, s: string)
    requires lists != [] && forall i :: 0 <= i < |lists| ==> AllPlain(lists[i])
    ensures var found := AtEnd(Outcomes(Alternatives(lists, index), s, Thread(0, map[])), |s|);
      && ((forall i :: 0 <= i < |lists| ==> !Accepts(lists[i], s, 0)) ==> found == [])
      && (forall k: nat :: IsFirst(lists, s, k) ==>
            found != [] && found[0] == Thread(|s|, map[index + k := Span(0, |s|)]))
  {
    hide AtEnd;
    var t := Thread(0, map[]);
    GroupOutcome(lists[0], index, s);
    if |lists| > 1 {
      var rest := lists[1..];
      AlternativesOutcome(rest, index + 1, s);
      AtEndAppend(Outcomes(Cat(Group(index, Chain(lists[0])), Empty), s, t),
                  Outcomes(Alternatives(rest, index + 1), s, t), |s|);
      forall k: nat | IsFirst(lists, s, k) && k > 0 ensures IsFirst(rest, s, k - 1) {
        assert forall i :: 0 <= i < |rest| ==> rest[i] == lists[i + 1];
      }
    }
  }

  lemma {:induction false} AnchoredElsewhere(node: Node, s: string, from: nat)
    requires from > 0
    ensures Execute(Cat(Start, node), s, from) == None
    decreases if from <= |s| then |s| - from + 1 else 0
  {
    assert Outcomes(Cat(Start, node), s, Thread(from, map[])) == [];
    if from < |s| {
      AnchoredElsewhere(node, s, from + 1);
    }
  }

  /** Running the whole pattern finds the first accepting template: its group is
      defined and no other is; with no accepting template there is no match. */
  lemma TreeExecutes(lists: seq<seq<Node>>, s: string)
    requires lists != [] && forall i :: 0 <= i < |lists| ==> AllPlain(lists[i])
    ensures (forall i :: 0 <= i < |lists| ==> !Accepts(lists[i], s, 0)) ==> Execute(Tree(lists), s, 0) == None
    ensures forall k: nat :: IsFirst(lists, s, k) ==>
      Execute(Tree(lists), s, 0) == Some(map[k + 1 := Span(0, |s|)])
  {
    var t := Thread(0, map[]);
    var body := Cat(Alternatives(lists, 1), Cat(End, Empty));
    var inner := Outcomes(Alternatives(lists, 1), s, t);
    AlternativesOutcome(lists, 1, s);
    EndFilters(s, inner);
    assert Outcomes(Start, s, t) == [t];
    assert [t][1..] == [];
    assert OutcomesAll(body, s, [t]) == Outcomes(body, s, t) + OutcomesAll(body, s, [t][1..]);
    assert Outcomes(Tree(lists), s, t) == AtEnd(inner, |s|);
    if |s| > 0 {
      AnchoredElsewhere(body, s, 1);
    }
  }

  // ----- from template texts to meaning -----

  function NodeLists(paths: seq<string>): (lists: seq<seq<Node>>)
    ensures |lists| == |paths|
    ensures forall i :: 0 <= i < |lists| ==> lists[i] == TemplateNodes(Segments(paths[i]))
  {
    seq(|paths|, i requires 0 <= i < |paths| => TemplateNodes(Segments(paths[i])))
  }

  ghost predicate AllCompile(paths: seq<string>) {
    forall i :: 0 <= i < |paths| ==> TemplateText(paths[i]).Ok?
  }

  ghost predicate NoneMatches(paths: seq<string>, s: string) {
    forall i :: 0 <= i < |paths| ==> !TemplateMatches(paths[i], s)
  }

  ghost predicate FirstMatch(paths: seq<string>, s: string, k: nat) {
    k < |paths| && TemplateMatches(paths[k], s) && forall i :: 0 <= i < k ==> !TemplateMatches(paths[i], s)
  }

  lemma NodesMean(path: string, s: string)
    requires TemplateText(path).Ok?
    ensures var nodes := TemplateNodes(Segments(path));
      && nodes != [] && AllPlain(nodes) && PatternText(path) == Render(nodes)
      && (Accepts(nodes, s, 0) <==> TemplateMatches(path, s))
  {
    TemplateRenders(Segments(path));
    TemplateAccepts(Segments(path), s, 0);
  }

  /** The combined text of a list of templates, read back and run on a path,
      finds the first template that matches it segment by segment. */
  lemma PatternMeaning(paths: seq<string>, s: string)
    requires paths != [] && AllCompile(paths)
    ensures var pattern := ReadPattern(Combined(PatternTexts(paths)));
      && pattern.Some? && pattern.value.groups == |paths|
      && (NoneMatches(paths, s) ==> Execute(pattern.value.node, s, 0) == None)
      && forall k: nat :: FirstMatch(paths, s, k) ==>
           Execute(pattern.value.node, s, 0) == Some(map[k + 1 := Span(0, |s|)])
  {
    var lists := NodeLists(paths);
    forall i | 0 <= i < |paths|
      ensures lists[i] != [] && AllPlain(lists[i]) && PatternTexts(paths)[i] == Render(lists[i])
      ensures Accepts(lists[i], s, 0) <==> TemplateMatches(paths[i], s)
    {
      NodesMean(paths[i], s);
    }
    CombinedReadsBack(PatternTexts(paths), lists);
    TreeExecutes(lists, s);
    forall k: nat | FirstMatch(paths, s, k) ensures IsFirst(lists, s, k) {
    }
  }
}
