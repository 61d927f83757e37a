/** The edge's matcher, and the end-to-end theorem: a compiled document is
    enforced as it was written. */
module RouteMatching {
  import opened Letters
  import opened Text
  import opened RouteCompiler
  import opened RouteMeaning
  import RouteTemplate
  import Regex

  datatype Resolution = Matched(route: Route) | Default(decision: Decision)

  datatype MatcherError =
    | DuplicateRoute(id: string)
    | DuplicateMethod(httpMethod: string)
    | NotAnchored(httpMethod: string)
    | UnknownRoute(id: string)
    | UnreadablePattern(httpMethod: string)
    | RouteUnavailable(id: string)
    | NoRouteIdentified(httpMethod: string)

  datatype RuntimeMatcher = RuntimeMatcher(node: Regex.Node, routeIds: seq<string>)

  /** `String.toUpperCase` on the ASCII letters a request method is made of. */
  function ToUpper(s: string): (upper: string)
    ensures |upper| == |s|
    ensures forall i :: 0 <= i < |s| ==>
      upper[i] == if 'a' <= s[i] <= 'z' then ((s[i] as int) - 32) as char else s[i]
  {
    seq(|s|, i requires 0 <= i < |s| =>
      if 'a' <= s[i] <= 'z' then ((s[i] as int) - 32) as char else s[i])
  }

  /** The one text without small letters that differs from a text in letter case only. */
  lemma ToUpperIff(s: string, upper: string)
    ensures upper == ToUpper(s) <==> SameButCase(s, upper) && NoSmallLetter(upper)
  {
    hide CasePairs;
    forall i | 0 <= i < |s|
      ensures !IsSmall(ToUpper(s)[i])
      ensures if IsSmall(s[i]) then ToUpper(s)[i] == CasePairs()[s[i]] else ToUpper(s)[i] == s[i]
    {
      SmallIff(s[i]);
      SmallIff(ToUpper(s)[i]);
    }
  }

  /** The methods a policy may name are written without small letters. */
  lemma AllowedMethodsHaveNoSmallLetter(m: string)
    requires m in ALLOWED_METHODS
    ensures NoSmallLetter(m) && SameButCase(m, m)
  {
    hide CasePairs;
    forall i | 0 <= i < |m| ensures !IsSmall(m[i]) {
      SmallIff(m[i]);
    }
  }

  // ----- what the document promises -----

  function FirstRoute(routes: seq<Route>, m: string, path: string): Option<Route> {
    if routes == [] then None
    else if m in routes[0].methods && TemplateMatches(routes[0].path, path) then Some(routes[0])
    else FirstRoute(routes[1..], m, path)
  }

  /** The first route in document order that lists the method and whose template
      matches the path segment by segment; otherwise the default decision. */
  function Enforce(document: Document, m: string, path: string): Resolution {
    match FirstRoute(document.routes, m, path)
    case Some(route) => Matched(route)
    case None => Default(document.defaultDecision)
  }

  // ----- which bundles the edge accepts -----

  predicate Anchored(regex: string) {
    StartsWith(regex, "^") && regex != "" && regex[|regex| - 1] == '$'
  }

  lemma AnchoredMeans(regex: string)
    ensures Anchored(regex) <==> regex != "" && regex[0] == '^' && regex[|regex| - 1] == '$'
  {
  }

  ghost predicate AcceptableMatcher(matcher: MethodMatcher, routes: seq<Route>) {
    && matcher.regex != "" && matcher.regex[0] == '^' && matcher.regex[|matcher.regex| - 1] == '$'
    && (forall id :: id in matcher.routeIds ==> id in Ids(routes))
    && Regex.ReadPattern(matcher.regex).Some?
  }

  ghost predicate Acceptable(bundle: Bundle) {
    && Distinct(Ids(bundle.routes))
    && Distinct(MatcherMethods(bundle.matchers))
    && forall i :: 0 <= i < |bundle.matchers| ==> AcceptableMatcher(bundle.matchers[i], bundle.routes)
  }

  /** What the error of a refused bundle says about it. */
  ghost predicate Faulty(bundle: Bundle, e: MatcherError) {
    match e
    case DuplicateRoute(id) =>
      exists i, j :: 0 <= i < j < |bundle.routes| && bundle.routes[i].id == id && bundle.routes[j].id == id
    case DuplicateMethod(m) =>
      exists i, j :: 0 <= i < j < |bundle.matchers|
        && bundle.matchers[i].httpMethod == m && bundle.matchers[j].httpMethod == m
    case NotAnchored(m) =>
      exists matcher :: matcher in bundle.matchers && matcher.httpMethod == m
        && (matcher.regex == "" || matcher.regex[0] != '^' || matcher.regex[|matcher.regex| - 1] != '$')
    case UnknownRoute(id) =>
      id !in Ids(bundle.routes) && exists matcher :: matcher in bundle.matchers && id in matcher.routeIds
    case UnreadablePattern(m) =>
      exists matcher :: matcher in bundle.matchers && matcher.httpMethod == m && Regex.ReadPattern(matcher.regex).None?
    case _ => false
  }

  function Runtime(matcher: MethodMatcher): RuntimeMatcher
    requires Regex.ReadPattern(matcher.regex).Some?
  {
    RuntimeMatcher(Regex.ReadPattern(matcher.regex).value.node, matcher.routeIds)
  }

  ghost predicate IndexesRoutes(byId: map<string, Route>, routes: seq<Route>) {
    && byId.Keys == (set id | id in Ids(routes))
    && forall i :: 0 <= i < |routes| ==> routes[i].id in byId && byId[routes[i].id] == routes[i]
  }

  ghost predicate IndexesMatchers(byMethod: map<string, RuntimeMatcher>, matchers: seq<MethodMatcher>) {
    && byMethod.Keys == (set m | m in MatcherMethods(matchers))
    && forall i :: 0 <= i < |matchers| ==>
         && Regex.ReadPattern(matchers[i].regex).Some?
         && matchers[i].httpMethod in byMethod
         && byMethod[matchers[i].httpMethod] == Runtime(matchers[i])
  }

  lemma RoutesStep(byId: map<string, Route>, routes: seq<Route>, i: nat)
    requires i < |routes| && IndexesRoutes(byId, routes[..i]) && routes[i].id !in byId && Distinct(Ids(routes[..i]))
    ensures IndexesRoutes(byId[routes[i].id := routes[i]], routes[..i + 1]) && Distinct(Ids(routes[..i + 1]))
  {
    assert Ids(routes[..i + 1]) == Ids(routes[..i]) + [routes[i].id];
    assert forall j :: 0 <= j < i ==> Ids(routes[..i])[j] in byId;
  }

  lemma MatchersStep(byMethod: map<string, RuntimeMatcher>, matchers: seq<MethodMatcher>, i: nat)
    requires i < |matchers| && IndexesMatchers(byMethod, matchers[..i]) && matchers[i].httpMethod !in byMethod
    requires Distinct(MatcherMethods(matchers[..i])) && Regex.ReadPattern(matchers[i].regex).Some?
    ensures IndexesMatchers(byMethod[matchers[i].httpMethod := Runtime(matchers[i])], matchers[..i + 1])
    ensures Distinct(MatcherMethods(matchers[..i + 1]))
  {
    hide Regex.ReadPattern;
    assert MatcherMethods(matchers[..i + 1]) == MatcherMethods(matchers[..i]) + [matchers[i].httpMethod];
    assert forall j :: 0 <= j < i ==> MatcherMethods(matchers[..i])[j] in byMethod;
  }

  /** The first matchers have been accepted and indexed. */
  ghost predicate Indexed(byMethod: map<string, RuntimeMatcher>, bundle: Bundle, i: nat)
    requires i <= |bundle.matchers|
  {
    && IndexesMatchers(byMethod, bundle.matchers[..i])
    && Distinct(MatcherMethods(bundle.matchers[..i]))
    && forall j :: 0 <= j < i ==> AcceptableMatcher(bundle.matchers[j], bundle.routes)
  }

  lemma NothingIndexed(bundle: Bundle)
    ensures Indexed(map[], bundle, 0)
  {
  }

  lemma OneMoreIndexed(byMethod: map<string, RuntimeMatcher>, bundle: Bundle, i: nat)
    requires i < |bundle.matchers| && Indexed(byMethod, bundle, i) && bundle.matchers[i].httpMethod !in byMethod
    requires AcceptableMatcher(bundle.matchers[i], bundle.routes)
    ensures Indexed(byMethod[bundle.matchers[i].httpMethod := Runtime(bundle.matchers[i])], bundle, i + 1)
  {
    hide Regex.ReadPattern, IndexesMatchers, Distinct;
    MatchersStep(byMethod, bundle.matchers, i);
  }

  /** A method seen before is a method listed twice. */
  lemma Repeated(byMethod: map<string, RuntimeMatcher>, bundle: Bundle, i: nat)
    requires i < |bundle.matchers| && Indexed(byMethod, bundle, i) && bundle.matchers[i].httpMethod in byMethod
    ensures !Acceptable(bundle) && Faulty(bundle, DuplicateMethod(bundle.matchers[i].httpMethod))
  {
    hide AcceptableMatcher;
    var names := MatcherMethods(bundle.matchers);
    assert names[i] in MatcherMethods(bundle.matchers[..i]);
    var j :| 0 <= j < i && MatcherMethods(bundle.matchers[..i])[j] == names[i];
    assert names[j] == names[i];
  }

  lemma FaultRefuses(bundle: Bundle, i: nat)
    requires i < |bundle.matchers| && !AcceptableMatcher(bundle.matchers[i], bundle.routes)
    ensures !Acceptable(bundle)
  {
  }

  lemma AllIndexed(byMethod: map<string, RuntimeMatcher>, bundle: Bundle)
    requires Indexed(byMethod, bundle, |bundle.matchers|) && Distinct(Ids(bundle.routes))
    ensures Acceptable(bundle) && IndexesMatchers(byMethod, bundle.matchers)
  {
    hide AcceptableMatcher, IndexesMatchers, Distinct;
    assert bundle.matchers[..|bundle.matchers|] == bundle.matchers;
  }

  class RouteMatcher {
    const defaultDecision: Decision
    const routesById: map<string, Route>
    const matchersByMethod: map<string, RuntimeMatcher>
    ghost const bundle: Bundle

    ghost predicate Valid() {
      && Acceptable(bundle)
      && defaultDecision == bundle.defaultDecision
      && IndexesRoutes(routesById, bundle.routes)
      && IndexesMatchers(matchersByMethod, bundle.matchers)
    }

    constructor (defaultDecision: Decision, routesById: map<string, Route>,
                 matchersByMethod: map<string, RuntimeMatcher>, ghost bundle: Bundle)
      ensures this.defaultDecision == defaultDecision && this.bundle == bundle
      ensures this.routesById == routesById && this.matchersByMethod == matchersByMethod
    {
      this.defaultDecision := defaultDecision;
      this.routesById := routesById;
      this.matchersByMethod := matchersByMethod;
      this.bundle := bundle;
    }

    /** The source's constructor, which throws on an inconsistent bundle. */
    static method Create(bundle: Bundle) returns (r: Result<RouteMatcher, MatcherError>)
      ensures r.Ok? <==> Acceptable(bundle)
      ensures r.Err? ==> Faulty(bundle, r.error)
      ensures r.Ok? ==> fresh(r.value) && r.value.Valid() && r.value.bundle == bundle
    {
      var byId: map<string, Route> := map[];
      for i := 0 to |bundle.routes|
        invariant IndexesRoutes(byId, bundle.routes[..i]) && Distinct(Ids(bundle.routes[..i]))
      {
        var route := bundle.routes[i];
        if route.id in byId {
          assert Ids(bundle.routes[..i]) <= Ids(bundle.routes);
          var j :| 0 <= j < i && Ids(bundle.routes[..i])[j] == route.id;
          return Err(DuplicateRoute(route.id));
        }
        RoutesStep(byId, bundle.routes, i);
        byId := byId[route.id := route];
      }
      assert bundle.routes[..|bundle.routes|] == bundle.routes;
      var indexed := IndexMatchers(bundle, byId);
      if indexed.Err? {
        return Err(indexed.error);
      }
      var matcher := new RouteMatcher(bundle.defaultDecision, byId, indexed.value, bundle);
      return Ok(matcher);
    }

    static method IndexMatchers(bundle: Bundle, byId: map<string, Route>)
      returns (r: Result<map<string, RuntimeMatcher>, MatcherError>)
      requires IndexesRoutes(byId, bundle.routes) && Distinct(Ids(bundle.routes))
      ensures r.Ok? <==> Acceptable(bundle)
      ensures r.Err? ==> Faulty(bundle, r.error)
      ensures r.Ok? ==> IndexesMatchers(r.value, bundle.matchers)
    {
      hide Regex.ReadPattern, Acceptable, Indexed, AcceptableMatcher;
      var byMethod: map<string, RuntimeMatcher> := map[];
      var matchers := bundle.matchers;
      NothingIndexed(bundle);
      for i := 0 to |matchers|
        invariant Indexed(byMethod, bundle, i)
      {
        var matcher := matchers[i];
        if matcher.httpMethod in byMethod {
          Repeated(byMethod, bundle, i);
          return Err(DuplicateMethod(matcher.httpMethod));
        }
        var fault := FindFault(matcher, byId, bundle.routes);
        if fault.Some? {
          FaultRefuses(bundle, i);
          return Err(fault.value);
        }
        OneMoreIndexed(byMethod, bundle, i);
        var node := Regex.ReadPattern(matcher.regex).value.node;
        byMethod := byMethod[matcher.httpMethod := RuntimeMatcher(node, matcher.routeIds)];
      }
      AllIndexed(byMethod, bundle);
      return Ok(byMethod);
    }

    /** The checks of one matcher, in the source's order. */
    static method FindFault(matcher: MethodMatcher, byId: map<string, Route>, ghost routes: seq<Route>)
      returns (fault: Option<MatcherError>)
      requires IndexesRoutes(byId, routes)
      ensures fault.None? <==> AcceptableMatcher(matcher, routes)
      ensures fault.Some? ==>
        forall bundle: Bundle :: bundle.routes == routes && matcher in bundle.matchers ==> Faulty(bundle, fault.value)
      ensures fault.None? ==> Regex.ReadPattern(matcher.regex).Some?
    {
      hide Regex.ReadPattern, Anchored, Ids;
      AnchoredMeans(matcher.regex);
      if !Anchored(matcher.regex) {
        return Some(NotAnchored(matcher.httpMethod));
      }
      for k := 0 to |matcher.routeIds|
        invariant forall id :: id in matcher.routeIds[..k] ==> id in Ids(routes)
      {
        if matcher.routeIds[k] !in byId {
          return Some(UnknownRoute(matcher.routeIds[k]));
        }
      }
      if Regex.ReadPattern(matcher.regex).None? {
        return Some(UnreadablePattern(matcher.httpMethod));
      }
      return None;
    }

    /** The best match names a route by its first defined group. For every
        document this bundle was compiled from, the answer is the document's own
        for the method written without small letters. */
    method Resolve(httpMethod: string, path: string) returns (r: Result<Resolution, MatcherError>)
      requires Valid()
      ensures r == ResolveBundle(bundle, ToUpper(httpMethod), path)
      ensures exists m :: SameButCase(httpMethod, m) && NoSmallLetter(m)
      ensures forall document, m ::
        IsCompiled(document, bundle) && ValidRoutes(document.routes) && Clean(document.routes)
        && SameButCase(httpMethod, m) && NoSmallLetter(m) ==>
          r == Ok(Enforce(document, m, path))
    {
      hide SameButCase, NoSmallLetter;
      ToUpperIff(httpMethod, ToUpper(httpMethod));
      forall document, m | IsCompiled(document, bundle) && ValidRoutes(document.routes) && Clean(document.routes)
          && SameButCase(httpMethod, m) && NoSmallLetter(m)
        ensures ResolveBundle(bundle, ToUpper(httpMethod), path) == Ok(Enforce(document, m, path))
      {
        ToUpperIff(httpMethod, m);
        CompiledBundleEnforces(document, bundle, m, path);
      }
      var normalized := ToUpper(httpMethod);
      FindsMatcher(bundle.matchers, normalized);
      if normalized !in matchersByMethod {
        return Ok(Default(defaultDecision));
      }
      var matcher := matchersByMethod[normalized];
      var found := Regex.Execute(matcher.node, path, 0);
      if found.None? {
        return Ok(Default(defaultDecision));
      }
      for index := 0 to |matcher.routeIds|
        invariant FirstDefined(found.value, matcher.routeIds, 0) == FirstDefined(found.value, matcher.routeIds, index)
      {
        if index + 1 !in found.value {
          continue;
        }
        var id := matcher.routeIds[index];
        if id !in routesById {
          return Err(RouteUnavailable(id));
        }
        FindsRoute(bundle.routes, id);
        return Ok(Matched(routesById[id]));
      }
      return Err(NoRouteIdentified(normalized));
    }
  }

  // ----- resolving against a bundle -----

  function MatcherNamed(matchers: seq<MethodMatcher>, m: string): Option<MethodMatcher> {
    if matchers == [] then None
    else if matchers[0].httpMethod == m then Some(matchers[0])
    else MatcherNamed(matchers[1..], m)
  }

  function RouteNamed(routes: seq<Route>, id: string): Option<Route> {
    if routes == [] then None
    else if routes[0].id == id then Some(routes[0])
    else RouteNamed(routes[1..], id)
  }

  function FirstDefined(captures: map<nat, Regex.Span>, ids: seq<string>, index: nat): Option<string>
    decreases |ids| - index
  {
    if index >= |ids| then None
    else if index + 1 in captures then Some(ids[index])
    else FirstDefined(captures, ids, index + 1)
  }

  function ResolveBundle(bundle: Bundle, m: string, path: string): Result<Resolution, MatcherError> {
    match MatcherNamed(bundle.matchers, m)
    case None => Ok(Default(bundle.defaultDecision))
    case Some(matcher) =>
      match Regex.ReadPattern(matcher.regex)
      case None => Err(UnreadablePattern(m))
      case Some(pattern) =>
        match Regex.Execute(pattern.node, path, 0)
        case None => Ok(Default(bundle.defaultDecision))
        case Some(captures) =>
          match FirstDefined(captures, matcher.routeIds, 0)
          case None => Err(NoRouteIdentified(m))
          case Some(id) =>
            match RouteNamed(bundle.routes, id)
            case None => Err(RouteUnavailable(id))
            case Some(route) => Ok(Matched(route))
  }

  lemma {:induction false} FindsMatcher(matchers: seq<MethodMatcher>, m: string)
    requires Distinct(MatcherMethods(matchers))
    ensures MatcherNamed(matchers, m).None? <==> m !in MatcherMethods(matchers)
    ensures forall i :: 0 <= i < |matchers| && matchers[i].httpMethod == m ==> MatcherNamed(matchers, m) == Some(matchers[i])
  {
    if matchers != [] {
      assert MatcherMethods(matchers) == [matchers[0].httpMethod] + MatcherMethods(matchers[1..]);
      FindsMatcher(matchers[1..], m);
    }
  }

  lemma {:induction false} FindsRoute(routes: seq<Route>, id: string)
    requires Distinct(Ids(routes))
    ensures RouteNamed(routes, id).None? <==> id !in Ids(routes)
    ensures forall i :: 0 <= i < |routes| && routes[i].id == id ==> RouteNamed(routes, id) == Some(routes[i])
  {
    if routes != [] {
      assert Ids(routes) == [routes[0].id] + Ids(routes[1..]);
      FindsRoute(routes[1..], id);
    }
  }

  // ----- the end-to-end theorem -----

  /** Every compiled bundle is accepted by the edge. */
  lemma CompiledBundleAccepted(document: Document, bundle: Bundle)
    requires ValidRoutes(document.routes) && Clean(document.routes) && IsCompiled(document, bundle)
    ensures Acceptable(bundle)
  {
    hide Regex.ReadPattern, Clean, RoutesFor;
    var names := MatcherMethods(bundle.matchers);
    forall i, j | 0 <= i < j < |names| ensures names[i] != names[j] {
      LessTotal(names[i], names[j]);
    }
    hide AcceptableMatcher, MatcherFor;
    forall i | 0 <= i < |bundle.matchers| ensures AcceptableMatcher(bundle.matchers[i], bundle.routes) {
      var m := bundle.matchers[i].httpMethod;
      assert names[i] == m;
      EmittedAcceptable(document.routes, m);
    }
  }

  lemma EmittedAcceptable(routes: seq<Route>, m: string)
    requires Clean(routes) && m in Methods(routes)
    ensures AcceptableMatcher(MatcherFor(routes, m), routes)
  {
    hide Regex.ReadPattern, Clean, RoutesFor, Join;
    EmittedReads(routes, m);
    ListedIds(routes, m);
    assert forall alternatives: string :: Anchored("^(?:" + alternatives + ")$");
  }

  /** `k` is where, among the routes listing the method, the first match stands. */
  ghost predicate Stands(found: Option<Route>, listed: seq<Route>, path: string, k: nat) {
    match found
    case None => NoneMatches(Paths(listed), path)
    case Some(route) => FirstMatch(Paths(listed), path, k) && listed[k] == route
  }

  lemma StandsAfter(found: Option<Route>, first: Route, rest: seq<Route>, path: string, k: nat)
    requires Stands(found, rest, path, k)
    ensures if TemplateMatches(first.path, path) then Stands(Some(first), [first] + rest, path, 0)
      else Stands(found, [first] + rest, path, k + 1)
  {
    hide TemplateMatches;
    assert Paths([first] + rest) == [first.path] + Paths(rest);
  }

  lemma {:induction false} FirstRouteListed(routes: seq<Route>, m: string, path: string) returns (k: nat)
    ensures Stands(FirstRoute(routes, m, path), RoutesFor(routes, m), path, k)
  {
    k := 0;
    if routes != [] {
      var rest, found := RoutesFor(routes[1..], m), FirstRoute(routes[1..], m, path);
      k := FirstRouteListed(routes[1..], m, path);
      if m in routes[0].methods {
        StandsAfter(found, routes[0], rest, path, k);
        assert RoutesFor(routes, m) == [routes[0]] + rest;
        k := if TemplateMatches(routes[0].path, path) then 0 else k + 1;
      } else {
        assert RoutesFor(routes, m) == [] + rest == rest;
        assert FirstRoute(routes, m, path) == found;
      }
    }
  }

  lemma FirstDefinedOnly(k: nat, span: Regex.Span, ids: seq<string>, index: nat)
    requires index <= k < |ids|
    ensures FirstDefined(map[k + 1 := span], ids, index) == Some(ids[k])
    decreases k - index
  {
    if index < k {
      FirstDefinedOnly(k, span, ids, index + 1);
    }
  }

  /** Compilation preserves meaning: for every method and every path whatsoever,
      the edge resolves a compiled bundle to the document's own first match, and
      neither internal error can occur. */
  lemma CompiledBundleEnforces(document: Document, bundle: Bundle, m: string, path: string)
    requires ValidRoutes(document.routes) && Clean(document.routes) && IsCompiled(document, bundle)
    ensures ResolveBundle(bundle, m, path) == Ok(Enforce(document, m, path))
  {
    hide Regex.ReadPattern, Regex.Execute, TemplateMatches, Clean, ValidRoutes, AcceptableMatcher, AllCompile;
    var routes := document.routes;
    var listed := RoutesFor(routes, m);
    CompiledBundleAccepted(document, bundle);
    FindsMatcher(bundle.matchers, m);
    MethodsMember(routes, m);
    var k := FirstRouteListed(routes, m, path);
    if m in MatcherMethods(bundle.matchers) {
      var i :| 0 <= i < |bundle.matchers| && bundle.matchers[i].httpMethod == m;
      CleanRoutesFor(routes, m);
      PatternMeaning(Paths(listed), path);
      if FirstRoute(routes, m, path).Some? {
        FirstDefinedOnly(k, Regex.Span(0, |path|), Ids(listed), 0);
        FindsRoute(routes, listed[k].id);
        var j :| 0 <= j < |routes| && routes[j] == listed[k];
        assert RouteNamed(routes, listed[k].id) == Some(routes[j]);
      }
    }
  }

  /** A final `*` matches any remainder that holds no line terminator: the
      enforced meaning differs from one in which it matches every remainder on
      exactly the paths whose remainder holds one. */
  lemma WildcardExcludesLineTerminators(template: string, path: string)
    ensures var segments := RouteTemplate.Segments(template);
      TemplateMatches(template, path) <==>
        && StartsWith(path, "/")
        && SegmentsMatchAnyLine(segments, Split(path[1..], '/'))
        && RemainderOnOneLine(segments, Split(path[1..], '/'))
    ensures OnOneLine(path) && StartsWith(path, "/") ==>
      RemainderOnOneLine(RouteTemplate.Segments(template), Split(path[1..], '/'))
  {
    if StartsWith(path, "/") {
      assert forall c :: c in path[1..] ==> c in path;
      SplitKeepsLines(path[1..]);
      RemainderDecides(RouteTemplate.Segments(template), Split(path[1..], '/'));
    }
  }
}
