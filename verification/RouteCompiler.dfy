/** The compiler from path templates to one anchored pattern per method. */
module RouteCompiler {
  import opened Text
  import opened RouteTemplate
  import Regex
  import RouteMeaning

  datatype Route = Route(id: string, methods: seq<string>, path: string, upstream: string)

  datatype Decision = Allow | Deny

  datatype Document = Document(defaultDecision: Decision, routes: seq<Route>)

  datatype MethodMatcher = MethodMatcher(httpMethod: string, regex: string, routeIds: seq<string>)

  datatype Bundle = Bundle(defaultDecision: Decision, matchers: seq<MethodMatcher>, routes: seq<Route>)

  datatype CompileError =
    | InvalidDocument
    | BadPath(routeId: string, reason: TemplateError)
    | Collision(existingId: string, routeId: string)

  // ----- validation performed before compilation -----

  const ALLOWED_METHODS := ["DELETE", "GET", "HEAD", "OPTIONS", "PATCH", "POST", "PUT"]

  predicate Distinct(names: seq<string>) {
    forall i, j :: 0 <= i < j < |names| ==> names[i] != names[j]
  }

  ghost predicate ValidRoute(route: Route) {
    && route.methods != []
    && (forall m :: m in route.methods ==> m in ALLOWED_METHODS)
    && Distinct(route.methods)
    && route.path != "" && route.path[0] == '/'
  }

  function Ids(routes: seq<Route>): (ids: seq<string>)
    ensures |ids| == |routes| && forall i :: 0 <= i < |ids| ==> ids[i] == routes[i].id
  {
    seq(|routes|, i requires 0 <= i < |routes| => routes[i].id)
  }

  ghost predicate ValidRoutes(routes: seq<Route>) {
    && routes != []
    && Distinct(Ids(routes))
    && forall route :: route in routes ==> ValidRoute(route)
  }

  /** `validateRoute`, as far as the compiler relies on it. */
  method ValidateRoute(route: Route) returns (valid: bool)
    ensures valid <==> ValidRoute(route)
  {
    if |route.methods| == 0 {
      return false;
    }
    var methods: set<string> := {};
    for i := 0 to |route.methods|
      invariant methods == (set m | m in route.methods[..i])
      invariant Distinct(route.methods[..i]) && forall m :: m in route.methods[..i] ==> m in ALLOWED_METHODS
    {
      var m := route.methods[i];
      assert m in route.methods && route.methods[..i + 1] == route.methods[..i] + [m];
      if m !in ALLOWED_METHODS {
        return false;
      }
      if m in methods {
        RepeatedName(route.methods, i);
        return false;
      }
      methods := methods + {m};
    }
    assert route.methods[..|route.methods|] == route.methods;
    return StartsWith(route.path, "/");
  }

  /** The loop over the routes, with the identifiers seen so far. */
  method ValidateRoutes(routes: seq<Route>) returns (valid: bool)
    ensures valid <==> ValidRoutes(routes)
  {
    hide ValidRoute;
    if |routes| == 0 {
      return false;
    }
    var routeIds: set<string> := {};
    for i := 0 to |routes|
      invariant routeIds == (set id | id in Ids(routes)[..i])
      invariant Distinct(Ids(routes)[..i]) && forall j :: 0 <= j < i ==> ValidRoute(routes[j])
    {
      var id := routes[i].id;
      assert Ids(routes)[..i + 1] == Ids(routes)[..i] + [id];
      if id in routeIds {
        RepeatedName(Ids(routes), i);
        return false;
      }
      routeIds := routeIds + {id};
      var ok := ValidateRoute(routes[i]);
      if !ok {
        assert routes[i] in routes;
        return false;
      }
    }
    assert Ids(routes)[..|routes|] == Ids(routes);
    return true;
  }

  lemma RepeatedName(names: seq<string>, i: nat)
    requires i < |names| && names[i] in names[..i]
    ensures !Distinct(names)
  {
    var j :| 0 <= j < i && names[..i][j] == names[i];
    assert names[j] == names[i];
  }

  lemma AllowedMethodsHaveNoNul(m: string)
    requires m in ALLOWED_METHODS
    ensures NUL !in m
  {
  }

  // ----- grouping by method -----

  datatype Candidate = Candidate(routeId: string, pattern: string)

  ghost predicate Compiles(route: Route) {
    WellFormed(route.path)
  }

  ghost predicate Collide(a: Route, b: Route) {
    a.path == b.path && exists m :: m in a.methods && m in b.methods
  }

  /** No template is refused and no two routes share a method and a path. */
  ghost predicate Clean(routes: seq<Route>) {
    && (forall i :: 0 <= i < |routes| ==> Compiles(routes[i]))
    && forall i, j :: 0 <= i < j < |routes| ==> !Collide(routes[i], routes[j])
  }

  /** The error reported is about the first route that cannot be accepted. */
  ghost predicate BlamesFirst(routes: seq<Route>, e: CompileError) {
    exists i :: 0 <= i < |routes| && Clean(routes[..i]) && Blames(routes, i, e)
  }

  ghost predicate Blames(routes: seq<Route>, i: nat, e: CompileError)
    requires i < |routes|
  {
    match e
    case InvalidDocument => false
    case BadPath(id, reason) => id == routes[i].id && FirstOffence(routes[i].path, reason)
    case Collision(existing, id) =>
      && id == routes[i].id
      && exists j :: 0 <= j < i && routes[j].id == existing && Collide(routes[j], routes[i])
  }

  /** The routes listing a method, in document order. */
  function RoutesFor(routes: seq<Route>, m: string): (found: seq<Route>)
    ensures forall r :: r in found ==> r in routes && m in r.methods
  {
    if routes == [] then []
    else (if m in routes[0].methods then [routes[0]] else []) + RoutesFor(routes[1..], m)
  }

  function Methods(routes: seq<Route>): set<string> {
    if routes == [] then {} else (set m | m in routes[0].methods) + Methods(routes[1..])
  }

  function Paths(routes: seq<Route>): (paths: seq<string>)
    ensures |paths| == |routes|
    ensures forall i :: 0 <= i < |paths| ==> paths[i] == routes[i].path
  {
    seq(|routes|, i requires 0 <= i < |routes| => routes[i].path)
  }

  function PatternsOf(routes: seq<Route>): (patterns: seq<Candidate>)
    ensures |patterns| == |routes|
    ensures forall i :: 0 <= i < |routes| ==>
      patterns[i] == Candidate(routes[i].id, PatternText(routes[i].path))
  {
    seq(|routes|, i requires 0 <= i < |routes| => Candidate(routes[i].id, PatternText(routes[i].path)))
  }

  function MatcherFor(routes: seq<Route>, m: string): MethodMatcher {
    var listed := RoutesFor(routes, m);
    MethodMatcher(m, Combined(PatternTexts(Paths(listed))), Ids(listed))
  }

  /** What the compiled bundle must be, up to nothing: see CompiledUnique. */
  ghost predicate IsCompiled(document: Document, bundle: Bundle) {
    && bundle.defaultDecision == document.defaultDecision
    && bundle.routes == document.routes
    && MatchersFor(document.routes, bundle.matchers)
  }

  function MatcherMethods(matchers: seq<MethodMatcher>): (names: seq<string>)
    ensures |names| == |matchers|
    ensures forall i :: 0 <= i < |names| ==> names[i] == matchers[i].httpMethod
  {
    seq(|matchers|, i requires 0 <= i < |matchers| => matchers[i].httpMethod)
  }

  /** Maps are iterated in no fixed order, yet the emitted bundle depends on the
      document alone. */
  lemma CompiledUnique(document: Document, a: Bundle, b: Bundle)
    requires IsCompiled(document, a) && IsCompiled(document, b)
    ensures a == b
  {
    SortedUnique(MatcherMethods(a.matchers), MatcherMethods(b.matchers));
    assert |a.matchers| == |b.matchers|;
    assert forall i :: 0 <= i < |a.matchers| ==>
      MatcherMethods(a.matchers)[i] == a.matchers[i].httpMethod == b.matchers[i].httpMethod;
    assert a.matchers == b.matchers;
  }

  /** Each method's route identifiers are exactly those of the routes listing it. */
  lemma {:induction false} MatcherHoldsEachPair(routes: seq<Route>, m: string, id: string)
    ensures id in Ids(RoutesFor(routes, m)) <==> exists r :: r in routes && r.id == id && m in r.methods
  {
    hide Ids;
    if routes != [] {
      MatcherHoldsEachPair(routes[1..], m, id);
      var first := if m in routes[0].methods then [routes[0]] else [];
      assert Ids(RoutesFor(routes, m)) == Ids(first) + Ids(RoutesFor(routes[1..], m));
      assert routes == [routes[0]] + routes[1..];
    }
  }

  lemma DistinctCons(first: string, rest: seq<string>)
    ensures Distinct([first] + rest) <==> first !in rest && Distinct(rest)
  {
    var names := [first] + rest;
    assert forall i :: 0 <= i < |rest| ==> names[i + 1] == rest[i];
    if Distinct(names) {
      forall i | 0 <= i < |rest| ensures rest[i] != first {
        assert names[0] != names[i + 1];
      }
      forall i, j | 0 <= i < j < |rest| ensures rest[i] != rest[j] {
        assert names[i + 1] != names[j + 1];
      }
    } else {
      var i, j :| 0 <= i < j < |names| && names[i] == names[j];
      assert names[j] == rest[j - 1];
      assert i > 0 ==> names[i] == rest[i - 1];
    }
  }

  lemma DistinctNone(names: seq<string>)
    requires names == []
    ensures Distinct(names)
  {
  }

  lemma ListedIds(routes: seq<Route>, m: string)
    ensures forall id :: id in Ids(RoutesFor(routes, m)) ==> id in Ids(routes)
  {
    var listed := RoutesFor(routes, m);
    forall i | 0 <= i < |listed| ensures Ids(listed)[i] in Ids(routes) {
      var k :| 0 <= k < |routes| && routes[k] == listed[i];
      assert Ids(routes)[k] == Ids(listed)[i];
    }
  }

  /** ... and none appears twice. */
  lemma {:induction false} MatcherHoldsEachPairOnce(routes: seq<Route>, m: string)
    requires Distinct(Ids(routes))
    ensures Distinct(Ids(RoutesFor(routes, m)))
  {
    hide Ids, Distinct;
    if routes != [] {
      var rest := routes[1..];
      assert Ids(routes) == [routes[0].id] + Ids(rest);
      DistinctCons(routes[0].id, Ids(rest));
      MatcherHoldsEachPairOnce(rest, m);
      var listed := RoutesFor(rest, m);
      if m in routes[0].methods {
        assert Ids(RoutesFor(routes, m)) == [routes[0].id] + Ids(listed);
        ListedIds(rest, m);
        DistinctCons(routes[0].id, Ids(listed));
      } else {
        assert RoutesFor(routes, m) == listed;
      }
    } else {
      DistinctNone(Ids(routes));
    }
  }

  // ----- the compilation loops -----

  lemma {:induction false} RoutesForAppend(routes: seq<Route>, route: Route, m: string)
    ensures RoutesFor(routes + [route], m) == RoutesFor(routes, m) + (if m in route.methods then [route] else [])
  {
    if routes == [] {
      assert routes + [route] == [route];
      assert [route][1..] == [];
    } else {
      RoutesForAppend(routes[1..], route, m);
      assert (routes + [route])[1..] == routes[1..] + [route];
      var first, last := if m in routes[0].methods then [routes[0]] else [], if m in route.methods then [route] else [];
      Associative(first, RoutesFor(routes[1..], m), last);
    }
  }

  lemma {:induction false} MethodsAppend(routes: seq<Route>, route: Route)
    ensures Methods(routes + [route]) == Methods(routes) + (set m | m in route.methods)
  {
    if routes == [] {
      assert routes + [route] == [route];
      assert [route][1..] == [];
    } else {
      MethodsAppend(routes[1..], route);
      assert (routes + [route])[1..] == routes[1..] + [route];
    }
  }

  lemma {:induction false} MethodsMember(routes: seq<Route>, m: string)
    ensures m in Methods(routes) <==> RoutesFor(routes, m) != []
  {
    if routes != [] {
      MethodsMember(routes[1..], m);
    }
  }

  /** The (method, route) pairs the loops have handled: every pair of the first
      i routes and the first k methods of route i. */
  ghost predicate Handled(routes: seq<Route>, i: nat, k: nat, j: nat, m: string) {
    && j < |routes|
    && ((j < i && m in routes[j].methods) || (j == i && k <= |routes[i].methods| && m in routes[i].methods[..k]))
  }

  ghost predicate SeenExactly(seen: map<string, string>, routes: seq<Route>, i: nat, k: nat) {
    && (forall j: nat, m :: Handled(routes, i, k, j, m) ==> NulKey(m, routes[j].path) in seen)
    && forall key :: key in seen ==> SeenFrom(seen, key, routes, i, k)
  }

  ghost predicate SeenFrom(seen: map<string, string>, key: string, routes: seq<Route>, i: nat, k: nat)
    requires key in seen
  {
    exists j: nat, m ::
      Handled(routes, i, k, j, m) && key == NulKey(m, routes[j].path) && seen[key] == routes[j].id
  }

  ghost predicate Grouped(byMethod: map<string, seq<Candidate>>, earlier: seq<Route>, route: Route, done: seq<string>) {
    && (forall m :: m in byMethod <==> m in Methods(earlier) || m in done)
    && forall m :: m in byMethod ==> byMethod[m] == PatternsSoFar(earlier, route, done, m)
  }

  function PatternsSoFar(earlier: seq<Route>, route: Route, done: seq<string>, m: string): seq<Candidate> {
    PatternsOf(RoutesFor(earlier, m)) + if m in done then [PatternOf(route)] else []
  }

  function PatternOf(route: Route): Candidate {
    Candidate(route.id, PatternText(route.path))
  }

  ghost predicate GroupedAll(byMethod: map<string, seq<Candidate>>, routes: seq<Route>) {
    && byMethod.Keys == Methods(routes)
    && forall m :: m in byMethod ==> byMethod[m] == PatternsOf(RoutesFor(routes, m))
  }

  /** No earlier route has this route's path together with one of its first k methods. */
  ghost predicate FreshSoFar(routes: seq<Route>, i: nat, k: nat)
    requires i < |routes| && k <= |routes[i].methods|
  {
    forall j, m :: 0 <= j < i && m in routes[i].methods[..k] && m in routes[j].methods ==>
      routes[j].path != routes[i].path
  }

  lemma KeysDiffer(routes: seq<Route>, i: nat, j: nat, m: string, other: string)
    requires ValidRoutes(routes) && i < |routes| && j < |routes|
    requires m in routes[i].methods && other in routes[j].methods
    ensures NulKey(m, routes[i].path) == NulKey(other, routes[j].path) <==>
      m == other && routes[i].path == routes[j].path
  {
    assert ValidRoute(routes[i]) && ValidRoute(routes[j]);
    AllowedMethodsHaveNoNul(m);
    AllowedMethodsHaveNoNul(other);
    NulKeyInjective(m, routes[i].path, other, routes[j].path);
  }

  lemma SeenStep(seen: map<string, string>, routes: seq<Route>, i: nat, k: nat)
    requires ValidRoutes(routes) && i < |routes| && k < |routes[i].methods|
    requires SeenExactly(seen, routes, i, k)
    ensures SeenExactly(seen[NulKey(routes[i].methods[k], routes[i].path) := routes[i].id], routes, i, k + 1)
      || NulKey(routes[i].methods[k], routes[i].path) in seen
  {
    var m := routes[i].methods[k];
    var key := NulKey(m, routes[i].path);
    if key !in seen {
      var seen' := seen[key := routes[i].id];
      assert routes[i].methods[..k + 1] == routes[i].methods[..k] + [m];
      assert forall j: nat, m' :: Handled(routes, i, k + 1, j, m') <==> Handled(routes, i, k, j, m') || (j == i && m' == m);
      assert Handled(routes, i, k + 1, i, m);
      forall key' | key' in seen' ensures SeenFrom(seen', key', routes, i, k + 1) {
        if key' != key {
          assert SeenFrom(seen, key', routes, i, k);
        }
      }
    }
  }

  /** A key met before belongs to an earlier route with this method and path. */
  lemma SeenMeansCollision(seen: map<string, string>, routes: seq<Route>, i: nat, k: nat)
    requires ValidRoutes(routes) && i < |routes| && k < |routes[i].methods|
    requires SeenExactly(seen, routes, i, k) && Clean(routes[..i])
    requires NulKey(routes[i].methods[k], routes[i].path) in seen
    ensures BlamesFirst(routes, Collision(seen[NulKey(routes[i].methods[k], routes[i].path)], routes[i].id))
    ensures !Clean(routes)
  {
    var m := routes[i].methods[k];
    var key := NulKey(m, routes[i].path);
    assert SeenFrom(seen, key, routes, i, k);
    var j: nat, other :| Handled(routes, i, k, j, other) && key == NulKey(other, routes[j].path) && seen[key] == routes[j].id;
    KeysDiffer(routes, i, j, m, other);
    assert ValidRoute(routes[i]);
    assert j < i;
    assert Collide(routes[j], routes[i]);
    assert Blames(routes, i, Collision(seen[key], routes[i].id));
  }

  lemma UnseenMeansFresh(seen: map<string, string>, routes: seq<Route>, i: nat, k: nat)
    requires ValidRoutes(routes) && i < |routes| && k < |routes[i].methods|
    requires SeenExactly(seen, routes, i, k) && FreshSoFar(routes, i, k)
    requires NulKey(routes[i].methods[k], routes[i].path) !in seen
    ensures FreshSoFar(routes, i, k + 1)
  {
    var m := routes[i].methods[k];
    assert routes[i].methods[..k + 1] == routes[i].methods[..k] + [m];
    forall j | 0 <= j < i && m in routes[j].methods ensures routes[j].path != routes[i].path {
      assert Handled(routes, i, k, j, m);
    }
  }

  lemma NothingChecked(routes: seq<Route>, i: nat)
    requires i < |routes|
    ensures FreshSoFar(routes, i, 0)
  {
  }

  lemma GroupedStep(byMethod: map<string, seq<Candidate>>, earlier: seq<Route>, route: Route, done: seq<string>, m: string)
    requires Grouped(byMethod, earlier, route, done) && m !in done
    ensures var before := if m in byMethod then byMethod[m] else [];
      Grouped(byMethod[m := before + [PatternOf(route)]], earlier, route, done + [m])
  {
    var before := if m in byMethod then byMethod[m] else [];
    var byMethod' := byMethod[m := before + [PatternOf(route)]];
    MethodsMember(earlier, m);
    assert before == PatternsOf(RoutesFor(earlier, m));
    forall x | x in byMethod' ensures byMethod'[x] == PatternsSoFar(earlier, route, done + [m], x) {
      if x != m {
        assert x in byMethod;
      }
    }
  }

  lemma GroupedRow(byMethod: map<string, seq<Candidate>>, earlier: seq<Route>, route: Route)
    ensures GroupedAll(byMethod, earlier) ==> Grouped(byMethod, earlier, route, [])
    ensures Grouped(byMethod, earlier, route, route.methods) ==> GroupedAll(byMethod, earlier + [route])
  {
    hide PatternsSoFar, PatternsOf, RoutesFor;
    MethodsAppend(earlier, route);
    forall m
      ensures PatternsSoFar(earlier, route, route.methods, m) == PatternsOf(RoutesFor(earlier + [route], m))
      ensures PatternsSoFar(earlier, route, [], m) == PatternsOf(RoutesFor(earlier, m))
    {
      PatternsRow(earlier, route, m);
    }
  }

  lemma PatternsRow(earlier: seq<Route>, route: Route, m: string)
    ensures PatternsSoFar(earlier, route, route.methods, m) == PatternsOf(RoutesFor(earlier + [route], m))
    ensures PatternsSoFar(earlier, route, [], m) == PatternsOf(RoutesFor(earlier, m))
  {
    hide RoutesFor;
    RoutesForAppend(earlier, route, m);
  }

  lemma CleanStep(routes: seq<Route>, i: nat)
    requires i < |routes| && Clean(routes[..i]) && Compiles(routes[i])
    requires FreshSoFar(routes, i, |routes[i].methods|)
    ensures Clean(routes[..i + 1])
  {
    hide Compiles;
    assert routes[i].methods[..|routes[i].methods|] == routes[i].methods;
  }

  /** The inner loop: one route is entered under each of its methods. */
  method GroupRoute(ghost routes: seq<Route>, ghost i: nat, route: Route, pattern: string,
                    byMethod0: map<string, seq<Candidate>>, seen0: map<string, string>)
    returns (collision: Option<string>, byMethod: map<string, seq<Candidate>>, seen: map<string, string>)
    requires ValidRoutes(routes) && i < |routes| && route == routes[i] && pattern == PatternText(route.path)
    requires Clean(routes[..i]) && Compiles(route)
    requires Grouped(byMethod0, routes[..i], route, []) && SeenExactly(seen0, routes, i, 0)
    ensures collision.None? ==>
      && Grouped(byMethod, routes[..i], route, route.methods)
      && SeenExactly(seen, routes, i, |route.methods|)
      && FreshSoFar(routes, i, |route.methods|)
    ensures collision.Some? ==> BlamesFirst(routes, Collision(collision.value, route.id)) && !Clean(routes)
  {
    hide Compiles, PatternText, BlamesFirst, SeenExactly, FreshSoFar, Grouped, NulKey;
    byMethod, seen := byMethod0, seen0;
    NothingChecked(routes, i);
    assert ValidRoute(route);
    for k := 0 to |route.methods|
      invariant Grouped(byMethod, routes[..i], route, route.methods[..k])
      invariant SeenExactly(seen, routes, i, k) && FreshSoFar(routes, i, k)
    {
      var m := route.methods[k];
      var key := NulKey(m, route.path);
      if key in seen {
        SeenMeansCollision(seen, routes, i, k);
        return Some(seen[key]), byMethod, seen;
      }
      SeenStep(seen, routes, i, k);
      UnseenMeansFresh(seen, routes, i, k);
      assert route.methods[..k + 1] == route.methods[..k] + [m];
      GroupedStep(byMethod, routes[..i], route, route.methods[..k], m);
      seen := seen[key := route.id];
      byMethod := byMethod[m := (if m in byMethod then byMethod[m] else []) + [Candidate(route.id, pattern)]];
    }
    assert route.methods[..|route.methods|] == route.methods;
    return None, byMethod, seen;
  }

  lemma PrefixStep(routes: seq<Route>, i: nat)
    requires i < |routes|
    ensures routes[..i + 1] == routes[..i] + [routes[i]]
  {
  }

  /** The outer loop: templates are compiled and grouped route by route. */
  method GroupByMethod(routes: seq<Route>) returns (r: Result<map<string, seq<Candidate>>, CompileError>)
    requires ValidRoutes(routes)
    ensures r.Ok? <==> Clean(routes)
    ensures r.Ok? ==> GroupedAll(r.value, routes)
    ensures r.Err? ==> BlamesFirst(routes, r.error)
  {
    var byMethod: map<string, seq<Candidate>> := map[];
    var seen: map<string, string> := map[];
    assert routes[..0] == [];
    for i := 0 to |routes|
      invariant Clean(routes[..i]) && GroupedAll(byMethod, routes[..i]) && SeenExactly(seen, routes, i, 0)
    {
      var route := routes[i];
      var compiled := CompilePathTemplate(route.path);
      if compiled.Err? {
        assert Blames(routes, i, BadPath(route.id, compiled.error));
        return Err(BadPath(route.id, compiled.error));
      }
      GroupedRow(byMethod, routes[..i], route);
      var collision;
      collision, byMethod, seen := GroupRoute(routes, i, route, compiled.value, byMethod, seen);
      if collision.Some? {
        return Err(Collision(collision.value, route.id));
      }
      GroupedRow(byMethod, routes[..i], route);
      PrefixStep(routes, i);
      CleanStep(routes, i);
      SeenRow(seen, routes, i);
    }
    assert routes[..|routes|] == routes;
    return Ok(byMethod);
  }

  lemma SeenRow(seen: map<string, string>, routes: seq<Route>, i: nat)
    requires i < |routes| && SeenExactly(seen, routes, i, |routes[i].methods|)
    ensures SeenExactly(seen, routes, i + 1, 0)
  {
    assert routes[i].methods[..|routes[i].methods|] == routes[i].methods;
    forall j: nat, m ensures Handled(routes, i + 1, 0, j, m) <==> Handled(routes, i, |routes[i].methods|, j, m) {
    }
    forall key | key in seen ensures SeenFrom(seen, key, routes, i + 1, 0) {
      assert SeenFrom(seen, key, routes, i, |routes[i].methods|);
    }
  }

  // ----- sorting the methods and emitting one matcher each -----

  function Insert(names: seq<string>, name: string): seq<string> {
    if names == [] || Less(name, names[0]) then [name] + names
    else [names[0]] + Insert(names[1..], name)
  }

  lemma {:induction false} InsertSorts(names: seq<string>, name: string)
    requires StrictlySorted(names) && name !in names
    ensures StrictlySorted(Insert(names, name))
    ensures forall x :: x in Insert(names, name) <==> x in names || x == name
  {
    if names == [] {
    } else if Less(name, names[0]) {
      forall x | x in names ensures Less(name, x) {
        if x != names[0] { LessTransitive(name, names[0], x); }
      }
    } else {
      var rest := names[1..];
      LessTotal(name, names[0]);
      InsertSorts(rest, name);
      assert names == [names[0]] + rest;
      forall x | x in Insert(rest, name) ensures Less(names[0], x) {
      }
    }
  }

  /** Collecting the keys in whatever order and sorting them. */
  method SortedKeys(keys: set<string>) returns (names: seq<string>)
    ensures StrictlySorted(names)
    ensures forall x :: x in names <==> x in keys
  {
    names := [];
    var remaining := keys;
    while remaining != {}
      invariant remaining <= keys && StrictlySorted(names)
      invariant forall x :: x in names <==> x in keys - remaining
    {
      var name :| name in remaining;
      InsertSorts(names, name);
      names := Insert(names, name);
      remaining := remaining - {name};
    }
  }

  ghost predicate MatchersFor(routes: seq<Route>, matchers: seq<MethodMatcher>) {
    && StrictlySorted(MatcherMethods(matchers))
    && (forall m :: m in MatcherMethods(matchers) <==> m in Methods(routes))
    && forall i :: 0 <= i < |matchers| ==> matchers[i] == MatcherFor(routes, matchers[i].httpMethod)
  }

  lemma {:induction false} CleanRoutesFor(routes: seq<Route>, m: string)
    requires Clean(routes)
    ensures RouteMeaning.AllCompile(Paths(RoutesFor(routes, m)))
  {
    var listed := RoutesFor(routes, m);
    forall i | 0 <= i < |listed| ensures TemplateText(listed[i].path).Ok? {
      assert listed[i] in routes && Compiles(listed[i]);
      TemplateTextIff(listed[i].path);
    }
  }

  /** The second half: one matcher per method. The emitted text is always
      readable, so compiling it cannot fail. */
  method EmitMatcher(ghost routes: seq<Route>, m: string, patterns: seq<Candidate>) returns (matcher: MethodMatcher)
    requires Clean(routes) && m in Methods(routes)
    requires patterns == PatternsOf(RoutesFor(routes, m))
    ensures matcher == MatcherFor(routes, m)
    ensures Regex.ReadPattern(matcher.regex).Some?
    ensures Regex.ReadPattern(matcher.regex).value.groups == |matcher.routeIds|
  {
    hide Regex.ReadPattern, Clean, MatcherFor, PatternText, RoutesFor, Methods, Join;
    var alternatives: seq<string> := [];
    var routeIds: seq<string> := [];
    for i := 0 to |patterns|
      invariant |alternatives| == |routeIds| == i
      invariant forall j :: 0 <= j < i ==> alternatives[j] == "(" + patterns[j].pattern + ")"
      invariant forall j :: 0 <= j < i ==> routeIds[j] == patterns[j].routeId
    {
      alternatives := alternatives + ["(" + patterns[i].pattern + ")"];
      routeIds := routeIds + [patterns[i].routeId];
    }
    MatcherText(routes, m, alternatives, routeIds);
    matcher := MethodMatcher(m, "^(?:" + Join(alternatives, "|") + ")$", routeIds);
    EmittedReads(routes, m);
  }

  lemma MatcherText(routes: seq<Route>, m: string, alternatives: seq<string>, routeIds: seq<string>)
    requires var patterns := PatternsOf(RoutesFor(routes, m));
      && |alternatives| == |routeIds| == |patterns|
      && (forall j :: 0 <= j < |patterns| ==> alternatives[j] == "(" + patterns[j].pattern + ")")
      && forall j :: 0 <= j < |patterns| ==> routeIds[j] == patterns[j].routeId
    ensures MatcherFor(routes, m) == MethodMatcher(m, "^(?:" + Join(alternatives, "|") + ")$", routeIds)
  {
    var listed := RoutesFor(routes, m);
    assert alternatives == Parenthesized(PatternTexts(Paths(listed)));
    assert routeIds == Ids(listed);
  }

  /** Every emitted text can be read, with one group per route identifier. */
  lemma EmittedReads(routes: seq<Route>, m: string)
    requires Clean(routes) && m in Methods(routes)
    ensures var matcher := MatcherFor(routes, m);
      var pattern := Regex.ReadPattern(matcher.regex);
      pattern.Some? && pattern.value.groups == |matcher.routeIds|
  {
    CleanRoutesFor(routes, m);
    MethodsMember(routes, m);
    RouteMeaning.PatternMeaning(Paths(RoutesFor(routes, m)), "");
  }

  method CompileMatchers(routes: seq<Route>) returns (r: Result<seq<MethodMatcher>, CompileError>)
    requires ValidRoutes(routes)
    ensures r.Ok? <==> Clean(routes)
    ensures r.Ok? ==> MatchersFor(routes, r.value)
    ensures r.Err? ==> BlamesFirst(routes, r.error)
  {
    var grouped := GroupByMethod(routes);
    if grouped.Err? {
      return Err(grouped.error);
    }
    var byMethod := grouped.value;
    var methods := SortedKeys(byMethod.Keys);
    var matchers: seq<MethodMatcher> := [];
    for i := 0 to |methods|
      invariant |matchers| == i
      invariant forall j :: 0 <= j < i ==> matchers[j] == MatcherFor(routes, methods[j])
    {
      assert methods[i] in byMethod;
      var matcher := EmitMatcher(routes, methods[i], byMethod[methods[i]]);
      matchers := matchers + [matcher];
    }
    assert MatcherMethods(matchers) == methods;
    return Ok(matchers);
  }

  /** The entry point: a document that fails validation or whose routes cannot
      be told apart is refused, and every other document has exactly one bundle. */
  method Compile(document: Document) returns (r: Result<Bundle, CompileError>)
    ensures r.Ok? <==> ValidRoutes(document.routes) && Clean(document.routes)
    ensures r.Ok? ==> IsCompiled(document, r.value)
    ensures r == Err(InvalidDocument) <==> !ValidRoutes(document.routes)
    ensures r.Err? && ValidRoutes(document.routes) ==> BlamesFirst(document.routes, r.error)
  {
    var valid := ValidateRoutes(document.routes);
    if !valid {
      return Err(InvalidDocument);
    }
    var matchers := CompileMatchers(document.routes);
    if matchers.Err? {
      return Err(matchers.error);
    }
    return Ok(Bundle(document.defaultDecision, matchers.value, document.routes));
  }
}
