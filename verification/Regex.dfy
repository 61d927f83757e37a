/** The fragment of regular expressions the control plane emits, as a tree with
    the engine's priority order, and as text with a reader for that text.

    Outcomes lists every way a node can match, best first, as a backtracking
    engine tries them; Execute takes the first. Captures are numbered by their
    opening parenthesis, and a group that took no part is absent. */
module Regex {
  import opened Text

  datatype CharSet = Exactly(c: char) | NotSlash | NotLineTerminator

  datatype Node =
    | Empty
    | Start
    | End
    | One(chars: CharSet)
    | Many(chars: CharSet, atLeast: nat)
    | Cat(first: Node, rest: Node)
    | Alt(left: Node, right: Node)
    | Group(index: nat, body: Node)

  datatype Span = Span(from: nat, to: nat)

  datatype Thread = Thread(pos: nat, captures: map<nat, Span>)

  predicate IsLineTerminator(c: char) {
    c == '\n' || c == '\r' || c == '\U{2028}' || c == '\U{2029}'
  }

  predicate Admits(chars: CharSet, c: char) {
    match chars
    case Exactly(d) => c == d
    case NotSlash => c != '/'
    case NotLineTerminator => !IsLineTerminator(c)
  }

  /** How many characters from `pos` on the set admits without a break. */
  function RunLength(chars: CharSet, s: string, pos: nat): nat
    decreases if pos < |s| then |s| - pos else 0
  {
    if pos < |s| && Admits(chars, s[pos]) then 1 + RunLength(chars, s, pos + 1) else 0
  }

  /** A greedy repetition offers its longest match first. */
  function Descend(t: Thread, most: nat, least: nat): seq<Thread> {
    if most < least then []
    else [t.(pos := t.pos + most)] + (if most == 0 then [] else Descend(t, most - 1, least))
  }

  function Outcomes(node: Node, s: string, t: Thread): seq<Thread>
    decreases node, 0
  {
    match node
    case Empty => [t]
    case Start => if t.pos == 0 then [t] else []
    case End => if t.pos == |s| then [t] else []
    case One(chars) => if t.pos < |s| && Admits(chars, s[t.pos]) then [t.(pos := t.pos + 1)] else []
    case Many(chars, least) => Descend(t, RunLength(chars, s, t.pos), least)
    case Cat(first, rest) => OutcomesAll(rest, s, Outcomes(first, s, t))
    case Alt(left, right) => Outcomes(left, s, t) + Outcomes(right, s, t)
    case Group(index, body) => Close(index, t.pos, Outcomes(body, s, t))
  }

  function OutcomesAll(node: Node, s: string, ts: seq<Thread>): seq<Thread>
    decreases node, 1 + |ts|
  {
    if ts == [] then [] else Outcomes(node, s, ts[0]) + OutcomesAll(node, s, ts[1..])
  }

  function Close(index: nat, from: nat, ts: seq<Thread>): (closed: seq<Thread>)
    ensures |closed| == |ts|
    ensures forall i :: 0 <= i < |ts| ==>
      closed[i] == Thread(ts[i].pos, ts[i].captures[index := Span(from, ts[i].pos)])
  {
    if ts == [] then []
    else [Thread(ts[0].pos, ts[0].captures[index := Span(from, ts[0].pos)])] + Close(index, from, ts[1..])
  }

  /** `RegExp.exec`: the best match at the leftmost start that has one. */
  function Execute(node: Node, s: string, from: nat): Option<map<nat, Span>>
    decreases if from <= |s| then |s| - from + 1 else 0
  {
    var found := Outcomes(node, s, Thread(from, map[]));
    if found != [] then Some(found[0].captures)
    else if from < |s| then Execute(node, s, from + 1)
    else None
  }

  // ----- the text form -----

  /** The fourteen characters `regexp.QuoteMeta` escapes, which are the syntax
      characters of an ECMAScript pattern. */
  predicate IsSyntax(c: char) {
    c in "\\.+*?()|[]{}^$"
  }

  function Quote(c: char): string {
    if IsSyntax(c) then ['\\', c] else [c]
  }

  /** `regexp.QuoteMeta` */
  function QuoteMeta(s: string): string {
    if s == "" then "" else Quote(s[0]) + QuoteMeta(s[1..])
  }

  /** A reading: the tree, the unread text and the groups opened so far. */
  datatype Reading = Read(node: Node, rest: string, groups: nat) | Unreadable

  function ReadDisjunction(t: string, groups: nat): (r: Reading)
    ensures r.Read? ==> |r.rest| <= |t|
    decreases |t|, 2
  {
    match ReadAlternative(t, groups)
    case Unreadable => Unreadable
    case Read(left, rest, g) =>
      if rest != "" && rest[0] == '|' then
        match ReadDisjunction(rest[1..], g)
        case Unreadable => Unreadable
        case Read(right, rest', g') => Read(Alt(left, right), rest', g')
      else
        Read(left, rest, g)
  }

  function ReadAlternative(t: string, groups: nat): (r: Reading)
    ensures r.Read? ==> |r.rest| <= |t|
    decreases |t|, 1
  {
    if t == "" || t[0] == '|' || t[0] == ')' then
      Read(Empty, t, groups)
    else
      match ReadTerm(t, groups)
      case Unreadable => Unreadable
      case Read(first, rest, g) =>
        match ReadAlternative(rest, g)
        case Unreadable => Unreadable
        case Read(others, rest', g') => Read(Cat(first, others), rest', g')
  }

  function ReadTerm(t: string, groups: nat): (r: Reading)
    requires t != ""
    ensures r.Read? ==> |r.rest| < |t|
    decreases |t|, 0
  {
    if t[0] == '^' then Read(Start, t[1..], groups)
    else if t[0] == '$' then Read(End, t[1..], groups)
    else if StartsWith(t, "(?:") then ReadClosing(ReadDisjunction(t[3..], groups), None)
    else if StartsWith(t, "(?") then Unreadable
    else if t[0] == '(' then
      ReadClosing(ReadDisjunction(t[1..], groups + 1), Some(groups + 1))
    else
      match ReadCharSet(t)
      case None => Unreadable
      case Some((chars, rest)) => ReadQuantifier(chars, rest, groups)
  }

  function ReadClosing(inner: Reading, index: Option<nat>): (r: Reading)
    ensures r.Read? ==> inner.Read? && |r.rest| < |inner.rest|
  {
    if inner.Unreadable? || inner.rest == "" || inner.rest[0] != ')' then Unreadable
    else match index
      case None => inner.(rest := inner.rest[1..])
      case Some(i) => Read(Group(i, inner.node), inner.rest[1..], inner.groups)
  }

  function ReadCharSet(t: string): (r: Option<(CharSet, string)>)
    requires t != ""
    ensures r.Some? ==> |r.value.1| < |t|
  {
    if t[0] == '\\' then
      if |t| >= 2 && IsSyntax(t[1]) then Some((Exactly(t[1]), t[2..])) else None
    else if t[0] == '.' then Some((NotLineTerminator, t[1..]))
    else if StartsWith(t, "[^/]") then Some((NotSlash, t[4..]))
    else if IsSyntax(t[0]) then None
    else Some((Exactly(t[0]), t[1..]))
  }

  function ReadQuantifier(chars: CharSet, t: string, groups: nat): (r: Reading)
    ensures r.Read? ==> |r.rest| <= |t|
  {
    if t != "" && (t[0] == '*' || t[0] == '+') then
      if |t| >= 2 && t[1] == '?' then Unreadable
      else Read(Many(chars, if t[0] == '+' then 1 else 0), t[1..], groups)
    else if t != "" && (t[0] == '?' || t[0] == '{') then Unreadable
    else Read(One(chars), t, groups)
  }

  datatype Pattern = Pattern(node: Node, groups: nat)

  /** `new RegExp(text)`, for texts in the fragment. */
  function ReadPattern(text: string): Option<Pattern> {
    match ReadDisjunction(text, 0)
    case Unreadable => None
    case Read(node, rest, groups) => if rest == "" then Some(Pattern(node, groups)) else None
  }
}
