/** What callers can observe of the bounded breaker: whenever making room loses
    something, some run of calls is answered otherwise than by the unbounded one. */
module CircuitObservers {
  import opened Text
  import opened CircuitModel
  import opened CircuitRuns

  /** A run that is answered differently from here on, on a clock that never goes back. */
  ghost predicate ToldApart(cfg: Config, s: System, t: IdealSystem, events: seq<Event>, clock: int)
    requires ValidConfig(cfg) && Inv(cfg, s.breaker)
  {
    NonDecreasing(events, clock) && Outcomes(cfg, s, events) != IdealOutcomes(cfg, t, events)
  }

  /** A run told apart later is told apart. */
  lemma Prepend(cfg: Config, s: System, t: IdealSystem, e: Event, events: seq<Event>, clock: int)
    requires ValidConfig(cfg) && Inv(cfg, s.breaker) && clock <= e.now
    requires Step(cfg, s, e).1.Some? <==> IdealStep(cfg, t, e).1.Some?
    ensures Inv(cfg, Step(cfg, s, e).0.breaker)
    ensures ToldApart(cfg, Step(cfg, s, e).0, IdealStep(cfg, t, e).0, events, e.now) ==>
      ToldApart(cfg, s, t, [e] + events, clock)
  {
    hide Step, IdealStep;
    StepKeeps(cfg, s, e);
    assert ([e] + events)[1..] == events;
    var a, b := Step(cfg, s, e).1, IdealStep(cfg, t, e).1;
    var later, later' := Outcomes(cfg, Step(cfg, s, e).0, events), IdealOutcomes(cfg, IdealStep(cfg, t, e).0, events);
    var first, first' := if a.Some? then [a.value] else [], if b.Some? then [b.value] else [];
    assert Outcomes(cfg, s, [e] + events) == first + later;
    assert IdealOutcomes(cfg, t, [e] + events) == first' + later';
    assert (first + later)[|first|..] == later && (first' + later')[|first'|..] == later';
  }

  /** A run told apart by its one call. */
  lemma AtOnce(cfg: Config, s: System, t: IdealSystem, e: Event, clock: int)
    requires ValidConfig(cfg) && Inv(cfg, s.breaker) && clock <= e.now
    requires Step(cfg, s, e).1.Some? && IdealStep(cfg, t, e).1.Some?
    requires Step(cfg, s, e).1 != IdealStep(cfg, t, e).1
    ensures ToldApart(cfg, s, t, [e], clock)
  {
    hide Step, IdealStep;
    StepKeeps(cfg, s, e);
    assert [e][1..] == [];
    var a, b := Step(cfg, s, e).1.value, IdealStep(cfg, t, e).1.value;
    assert Outcomes(cfg, Step(cfg, s, e).0, []) == [] == IdealOutcomes(cfg, IdealStep(cfg, t, e).0, []);
    assert Outcomes(cfg, s, [e]) == [a] + [] == [a];
    assert IdealOutcomes(cfg, t, [e]) == [b] + [] == [b];
    assert [a][0] != [b][0];
    assert NonDecreasing([e][1..], e.now);
  }

  // ----- a forgotten failure shows -----

  /** The bounded breaker has forgotten failures of an origin. */
  predicate Forgot(s: System, t: IdealSystem, key: Key, now: int) {
    && s.permits == t.permits && key in s.breaker.circuits
    && var c, d := s.breaker.circuits[key], Look(t.circuits, key);
      && c.state == Closed
      && if d.state == Closed then c.failures < d.failures else d.state == Open && now < d.openedUntil
  }

  /** One more request to the origin, failing at once. */
  lemma FailOnce(cfg: Config, s: System, t: IdealSystem, key: Key, now: int)
    requires ValidConfig(cfg) && Inv(cfg, s.breaker) && Forgot(s, t, key, now)
    requires Look(t.circuits, key).state == Closed && Look(t.circuits, key).failures < cfg.threshold
    ensures var call, fail := Event(now, AcquireFor(key)), Event(now, Fail(|s.permits|));
      var s1, t1 := Step(cfg, s, call).0, IdealStep(cfg, t, call).0;
      && Inv(cfg, s1.breaker) && Step(cfg, s, call).1 == IdealStep(cfg, t, call).1 == Some(Granted(false))
      && Step(cfg, s1, fail).1 == IdealStep(cfg, t1, fail).1 == None
      && var s2, t2 := Step(cfg, s1, fail).0, IdealStep(cfg, t1, fail).0;
        && Inv(cfg, s2.breaker) && Forgot(s2, t2, key, now)
        && Look(t2.circuits, key).failures == Look(t.circuits, key).failures + 1
        && (Look(t2.circuits, key).state == Closed ==> Look(t2.circuits, key).failures < cfg.threshold)
  {
    hide AcquireFound, FailFound;
    var call, fail := Event(now, AcquireFor(key)), Event(now, Fail(|s.permits|));
    AcquireEffect(cfg, s.breaker, key, now);
    AcquireFoundEffect(s.breaker, key, now);
    StepKeeps(cfg, s, call);
    var s1 := Step(cfg, s, call).0;
    FailFoundEffect(cfg, s1.breaker, key, now);
    StepKeeps(cfg, s1, fail);
  }

  /** Failing the origin until the unbounded breaker opens tells the two apart. */
  lemma {:induction false} ForgottenShows(cfg: Config, s: System, t: IdealSystem, key: Key, now: int)
    returns (events: seq<Event>)
    requires ValidConfig(cfg) && Inv(cfg, s.breaker) && Forgot(s, t, key, now)
    requires Look(t.circuits, key).state == Closed ==> Look(t.circuits, key).failures < cfg.threshold
    ensures ToldApart(cfg, s, t, events, now)
    ensures Touches(events, {key})
    decreases if Look(t.circuits, key).state == Closed then cfg.threshold - Look(t.circuits, key).failures else 0
  {
    hide Step, IdealStep, Consistent, Shaped;
    var call, fail := Event(now, AcquireFor(key)), Event(now, Fail(|s.permits|));
    if Look(t.circuits, key).state == Closed {
      FailOnce(cfg, s, t, key, now);
      var s1, t1 := Step(cfg, s, call).0, IdealStep(cfg, t, call).0;
      var later := ForgottenShows(cfg, Step(cfg, s1, fail).0, IdealStep(cfg, t1, fail).0, key, now);
      Prepend(cfg, s1, t1, fail, later, now);
      Prepend(cfg, s, t, call, [fail] + later, now);
      events := [call] + ([fail] + later);
    } else {
      OpenShows(cfg, s, t, key, now);
      AtOnce(cfg, s, t, call, now);
      events := [call];
    }
  }

  lemma OpenShows(cfg: Config, s: System, t: IdealSystem, key: Key, now: int)
    requires ValidConfig(cfg) && Inv(cfg, s.breaker) && Forgot(s, t, key, now) && Look(t.circuits, key).state == Open
    ensures var call := Event(now, AcquireFor(key));
      Step(cfg, s, call).1 == Some(Granted(false)) && IdealStep(cfg, t, call).1.Some? && IdealStep(cfg, t, call).1.value.Denied?
  {
    AcquireEffect(cfg, s.breaker, key, now);
  }

  // ----- harm shows -----

  /** The origin a step makes room for. */
  function KeyOf(s: System, e: Event): Key
    requires e.action.AcquireFor? || e.action.permit < |s.permits|
  {
    if e.action.AcquireFor? then e.action.key else s.permits[e.action.permit].key
  }

  /** Making room for a key would lose something: there is nothing to evict, or
      what would be evicted has failures. */
  lemma HarmMeans(cfg: Config, b: Breaker, key: Key)
    requires ValidConfig(cfg) && Inv(cfg, b) && !Harmless(cfg, b, key)
    ensures key !in b.circuits && |b.order| >= cfg.maximum
    ensures Victim(b).None? ==> forall k :: k in b.circuits ==> b.circuits[k].state != Closed
    ensures Victim(b).Some? ==>
      && Victim(b).value in b.circuits && Victim(b).value != key
      && b.circuits[Victim(b).value].state == Closed && 0 < b.circuits[Victim(b).value].failures < cfg.threshold
  {
    var i := VictimIsLeastRecent(b);
  }

  /** A full breaker with nothing to evict refuses the origin at any time. */
  lemma FullRefuses(cfg: Config, b: Breaker, key: Key, now: int)
    requires ValidConfig(cfg) && Inv(cfg, b) && !Harmless(cfg, b, key) && Victim(b).None?
    ensures Acquire(cfg, b, key, now) == (b, Denied(1)) && RecordFailure(cfg, b, key, now) == b
  {
    HarmMeans(cfg, b, key);
  }

  /** An acquire that finds no room is refused where the unbounded breaker grants. */
  lemma NoRoomShows(cfg: Config, s: System, t: IdealSystem, key: Key, now: int) returns (events: seq<Event>)
    requires ValidConfig(cfg) && Inv(cfg, s.breaker) && SameCircuits(s.breaker, t.circuits)
    requires !Harmless(cfg, s.breaker, key) && Victim(s.breaker).None?
    ensures events == [Event(now, AcquireFor(key))] && ToldApart(cfg, s, t, events, now)
  {
    HarmMeans(cfg, s.breaker, key);
    FullRefuses(cfg, s.breaker, key, now);
    assert SameCircuit(Look(s.breaker.circuits, key), Look(t.circuits, key));
    AtOnce(cfg, s, t, Event(now, AcquireFor(key)), now);
    events := [Event(now, AcquireFor(key))];
  }

  /** A late failure that finds no room is lost: once its open period would be
      over, the unbounded breaker lets the origin through. */
  lemma LostFailureShows(cfg: Config, s: System, t: IdealSystem, i: nat, now: int) returns (events: seq<Event>)
    requires ValidConfig(cfg) && Inv(cfg, s.breaker) && Agree(s, t) && Effective(s.permits, Fail(i))
    requires !Harmless(cfg, s.breaker, s.permits[i].key) && Victim(s.breaker).None?
    ensures events == [Event(now, Fail(i))] + [Event(now + cfg.openMs, AcquireFor(s.permits[i].key))]
    ensures ToldApart(cfg, s, t, events, now)
  {
    var key, fail := s.permits[i].key, Event(now, Fail(i));
    var call := Event(now + cfg.openMs, AcquireFor(key));
    HarmMeans(cfg, s.breaker, key);
    FullRefuses(cfg, s.breaker, key, now);
    FullRefuses(cfg, s.breaker, key, call.now);
    assert SameCircuit(Look(s.breaker.circuits, key), Look(t.circuits, key));
    StepKeeps(cfg, s, fail);
    var s1, t1 := Step(cfg, s, fail).0, IdealStep(cfg, t, fail).0;
    assert IdealStep(cfg, t1, call).1.value.Granted?;
    AtOnce(cfg, s1, t1, call, now);
    Prepend(cfg, s, t, fail, [call], now);
    events := [fail] + [call];
  }

  /** Evicting a circuit with failures forgets them. */
  lemma EvictionForgets(cfg: Config, b: Breaker, key: Key, now: int)
    requires ValidConfig(cfg) && Inv(cfg, b) && !Harmless(cfg, b, key) && Victim(b).Some?
    ensures var found := FindOrCreate(cfg, b, key, now);
      && found.Some? && Inv(cfg, found.value) && Victim(b).value !in found.value.circuits
      && key in found.value.circuits && found.value.circuits[key] == NewCircuit(now)
  {
    HarmMeans(cfg, b, key);
    FindOrCreateKeeps(cfg, b, key, now);
  }

  /** The evicted origin, called again, comes back with no failures. */
  lemma ComesBackFresh(cfg: Config, b: Breaker, victim: Key, other: Key, now: int)
    requires ValidConfig(cfg) && Inv(cfg, b) && victim !in b.circuits
    requires other in b.circuits && b.circuits[other].state == Closed
    ensures var (b', outcome) := Acquire(cfg, b, victim, now);
      Inv(cfg, b') && outcome == Granted(false) && victim in b'.circuits && b'.circuits[victim] == NewCircuit(now)
  {
    var i := VictimIsLeastRecent(b);
    AcquireEffect(cfg, b, victim, now);
    AcquireKeeps(cfg, b, victim, now);
  }

  /** The step that evicts: both breakers answer alike, but one has forgotten. */
  lemma EvictingStep(cfg: Config, s: System, t: IdealSystem, e: Event)
    requires ValidConfig(cfg) && Inv(cfg, s.breaker) && Agree(s, t) && !HarmlessStep(cfg, s, e)
    requires Victim(s.breaker).Some?
    ensures Inv(cfg, Step(cfg, s, e).0.breaker) && Step(cfg, s, e).1 == IdealStep(cfg, t, e).1
    ensures var (s1, t1) := (Step(cfg, s, e).0, IdealStep(cfg, t, e).0);
      var victim := Victim(s.breaker).value;
      && s1.permits == t1.permits && victim !in s1.breaker.circuits
      && (exists other :: other in s1.breaker.circuits && s1.breaker.circuits[other].state == Closed)
      && Look(t1.circuits, victim).state == Closed && 0 < Look(t1.circuits, victim).failures < cfg.threshold
  {
    hide FindOrCreate, AcquireFound, FailFound;
    var key := if e.action.AcquireFor? then e.action.key else s.permits[e.action.permit].key;
    var victim := Victim(s.breaker).value;
    HarmMeans(cfg, s.breaker, key);
    EvictionForgets(cfg, s.breaker, key, e.now);
    var found := FindOrCreate(cfg, s.breaker, key, e.now).value;
    AcquireEffect(cfg, s.breaker, key, e.now);
    AcquireFoundEffect(found, key, e.now);
    FailFoundEffect(cfg, found, key, e.now);
    StepKeeps(cfg, s, e);
    assert SameCircuit(Look(s.breaker.circuits, key), Look(t.circuits, key));
    assert SameCircuit(Look(s.breaker.circuits, victim), Look(t.circuits, victim));
    assert key in Step(cfg, s, e).0.breaker.circuits;
  }

  lemma ForgetfulReturn(cfg: Config, s: System, t: IdealSystem, victim: Key, other: Key, now: int)
    requires ValidConfig(cfg) && Inv(cfg, s.breaker) && s.permits == t.permits && victim !in s.breaker.circuits
    requires other in s.breaker.circuits && s.breaker.circuits[other].state == Closed
    requires Look(t.circuits, victim).state == Closed && 0 < Look(t.circuits, victim).failures
    ensures var call := Event(now, AcquireFor(victim));
      var s', t' := Step(cfg, s, call).0, IdealStep(cfg, t, call).0;
      && Step(cfg, s, call).1 == IdealStep(cfg, t, call).1 == Some(Granted(false))
      && Inv(cfg, s'.breaker) && Forgot(s', t', victim, now)
      && Look(t'.circuits, victim) == Look(t.circuits, victim)
  {
    hide Acquire;
    ComesBackFresh(cfg, s.breaker, victim, other, now);
  }

  lemma EvictionShows(cfg: Config, s: System, t: IdealSystem, e: Event) returns (events: seq<Event>)
    requires ValidConfig(cfg) && Inv(cfg, s.breaker) && Agree(s, t) && !HarmlessStep(cfg, s, e)
    requires Victim(s.breaker).Some?
    ensures events != [] && events[0] == e && ToldApart(cfg, s, t, events, e.now)
    ensures Touches(events[1..], {Victim(s.breaker).value})
  {
    hide Consistent, Shaped, Step, IdealStep, Forgot, HarmlessStep, Agree;
    var victim := Victim(s.breaker).value;
    EvictingStep(cfg, s, t, e);
    var s1, t1 := Step(cfg, s, e).0, IdealStep(cfg, t, e).0;
    var other :| other in s1.breaker.circuits && s1.breaker.circuits[other].state == Closed;
    ForgetfulReturn(cfg, s1, t1, victim, other, e.now);
    var call := Event(e.now, AcquireFor(victim));
    var later := ForgottenShows(cfg, Step(cfg, s1, call).0, IdealStep(cfg, t1, call).0, victim, e.now);
    Prepend(cfg, s1, t1, call, later, e.now);
    Prepend(cfg, s, t, e, [call] + later, e.now);
    events := [e] + ([call] + later);
    assert events[1..] == [call] + later;
  }

  /** A step that is not harmless is observable: some run that begins with it, on
      a clock that never goes back, is answered differently. It calls only for
      the origin in question and the one evicted. */
  lemma HarmShows(cfg: Config, s: System, t: IdealSystem, e: Event) returns (events: seq<Event>)
    requires ValidConfig(cfg) && Inv(cfg, s.breaker) && Agree(s, t) && !HarmlessStep(cfg, s, e)
    ensures events != [] && events[0] == e && ToldApart(cfg, s, t, events, e.now)
    ensures e.action.AcquireFor? || e.action.permit < |s.permits|
    ensures Touches(events[1..], s.breaker.circuits.Keys + {KeyOf(s, e)})
  {
    hide Consistent, Shaped, Step, IdealStep, Harmless;
    if Victim(s.breaker).Some? {
      events := EvictionShows(cfg, s, t, e);
      HarmMeans(cfg, s.breaker, KeyOf(s, e));
    } else if e.action.AcquireFor? {
      events := NoRoomShows(cfg, s, t, e.action.key, e.now);
    } else {
      events := LostFailureShows(cfg, s, t, e.action.permit, e.now);
      assert events[1..] == [Event(e.now + cfg.openMs, AcquireFor(KeyOf(s, e)))];
    }
  }

  /** From agreeing states, nobody can ever tell the two breakers apart exactly
      when no run makes room harmfully. */
  lemma ObservableIff(cfg: Config, s: System, t: IdealSystem)
    requires ValidConfig(cfg) && Inv(cfg, s.breaker) && Agree(s, t)
    ensures (forall events :: Outcomes(cfg, s, events) == IdealOutcomes(cfg, t, events)) <==>
      (forall events :: HarmlessRun(cfg, s, events))
  {
    if events :| !HarmlessRun(cfg, s, events) {
      var other := HarmfulRunShows(cfg, s, t, events);
    } else {
      forall events ensures Outcomes(cfg, s, events) == IdealOutcomes(cfg, t, events) {
        HarmlessRunsAgree(cfg, s, t, events);
      }
    }
  }

  /** Any run with a harmful step, cut off at the first one, goes on to be told apart. */
  lemma {:induction false} HarmfulRunShows(cfg: Config, s: System, t: IdealSystem, events: seq<Event>)
    returns (other: seq<Event>)
    requires ValidConfig(cfg) && Inv(cfg, s.breaker) && Agree(s, t) && !HarmlessRun(cfg, s, events)
    ensures other != [] && Outcomes(cfg, s, other) != IdealOutcomes(cfg, t, other)
    ensures exists n :: 0 < n <= |events| && n <= |other| && other[..n] == events[..n]
    decreases |events|
  {
    hide Step, IdealStep, Consistent, Shaped, HarmlessStep, Agree;
    var e := events[0];
    if HarmlessStep(cfg, s, e) {
      StepKeeps(cfg, s, e);
      StepAgrees(cfg, s, t, e);
      var s1, t1 := Step(cfg, s, e).0, IdealStep(cfg, t, e).0;
      var later := HarmfulRunShows(cfg, s1, t1, events[1..]);
      var n :| 0 < n <= |events[1..]| && n <= |later| && later[..n] == events[1..][..n];
      other := [e] + later;
      SameOutcomeLater(cfg, s, t, e, later);
      assert other[..n + 1] == [e] + later[..n] == events[..n + 1];
    } else {
      other := HarmShows(cfg, s, t, e);
      assert other[..1] == [e] == events[..1];
    }
  }

  lemma SameOutcomeLater(cfg: Config, s: System, t: IdealSystem, e: Event, events: seq<Event>)
    requires ValidConfig(cfg) && Inv(cfg, s.breaker) && Inv(cfg, Step(cfg, s, e).0.breaker)
    requires Step(cfg, s, e).1 == IdealStep(cfg, t, e).1
    requires Outcomes(cfg, Step(cfg, s, e).0, events) != IdealOutcomes(cfg, IdealStep(cfg, t, e).0, events)
    ensures Outcomes(cfg, s, [e] + events) != IdealOutcomes(cfg, t, [e] + events)
  {
    hide Step, IdealStep, Consistent, Shaped;
    assert ([e] + events)[1..] == events;
    var o := Step(cfg, s, e).1;
    var first := if o.Some? then [o.value] else [];
    var a, b := Outcomes(cfg, Step(cfg, s, e).0, events), IdealOutcomes(cfg, IdealStep(cfg, t, e).0, events);
    assert (first + a)[|first|..] == a && (first + b)[|first|..] == b;
  }

  // ----- how many origins it takes -----

  /** Every circuit held has failures. */
  predicate Troubled(b: Breaker) {
    forall k :: k in b.circuits ==> b.circuits[k].failures > 0
  }

  /** A new origin with room for it is called and fails. */
  lemma OneMoreTroubled(cfg: Config, s: System, t: IdealSystem, key: Key, now: int)
    requires ValidConfig(cfg) && Inv(cfg, s.breaker) && Agree(s, t) && Troubled(s.breaker)
    requires key !in s.breaker.circuits && |s.breaker.order| < cfg.maximum
    ensures var call, fail := Event(now, AcquireFor(key)), Event(now, Fail(|s.permits|));
      var s1, t1 := Step(cfg, s, call).0, IdealStep(cfg, t, call).0;
      && Inv(cfg, s1.breaker) && Step(cfg, s, call).1 == IdealStep(cfg, t, call).1
      && Step(cfg, s1, fail).1 == IdealStep(cfg, t1, fail).1
      && var s2, t2 := Step(cfg, s1, fail).0, IdealStep(cfg, t1, fail).0;
        && Inv(cfg, s2.breaker) && Agree(s2, t2) && Troubled(s2.breaker)
        && s2.breaker.circuits.Keys == s.breaker.circuits.Keys + {key}
        && |s2.breaker.order| == |s.breaker.order| + 1
  {
    hide AcquireFound, FailFound, Agree;
    var call, fail := Event(now, AcquireFor(key)), Event(now, Fail(|s.permits|));
    StepKeeps(cfg, s, call);
    StepAgrees(cfg, s, t, call);
    var s1, t1 := Step(cfg, s, call).0, IdealStep(cfg, t, call).0;
    var b1 := Put(s.breaker, key, NewCircuit(now));
    AcquireEffect(cfg, s.breaker, key, now);
    AcquireFoundEffect(b1, key, now);
    assert s1.breaker == AcquireFound(b1, key, now).0;
    FailFoundEffect(cfg, s1.breaker, key, now);
    StepKeeps(cfg, s1, fail);
    StepAgrees(cfg, s1, t1, fail);
  }

  lemma TouchesMore(e: Event, events: seq<Event>, some: set<Key>, origins: set<Key>)
    requires Touches(events, some) && some <= origins
    requires e.action.AcquireFor? ==> e.action.key in origins
    ensures Touches([e] + events, origins)
  {
  }

  lemma HarmfulCallShows(cfg: Config, s: System, t: IdealSystem, key: Key, now: int, origins: set<Key>)
    returns (events: seq<Event>)
    requires ValidConfig(cfg) && Inv(cfg, s.breaker) && Agree(s, t) && !Harmless(cfg, s.breaker, key)
    requires key in origins && s.breaker.circuits.Keys <= origins
    ensures ToldApart(cfg, s, t, events, now) && Touches(events, origins)
  {
    hide Step, IdealStep, SameCircuits, Consistent, Shaped, Harmless, Touches, ToldApart;
    var call := Event(now, AcquireFor(key));
    events := HarmShows(cfg, s, t, call);
    TouchesMore(call, events[1..], s.breaker.circuits.Keys + {key}, origins);
    assert events == [call] + events[1..];
  }

  /** With more origins than circuits: trouble every circuit there is room for,
      and then call one more origin. */
  lemma {:induction false} TooManyShow(cfg: Config, s: System, t: IdealSystem, rest: set<Key>, now: int)
    returns (events: seq<Event>)
    requires ValidConfig(cfg) && Inv(cfg, s.breaker) && Agree(s, t) && Troubled(s.breaker)
    requires rest !! s.breaker.circuits.Keys && |rest| + |s.breaker.order| > cfg.maximum
    ensures ToldApart(cfg, s, t, events, now) && Touches(events, rest + s.breaker.circuits.Keys)
    decreases |rest|
  {
    hide Step, IdealStep, SameCircuits, Consistent, Shaped, Troubled, Harmless, Touches, ToldApart;
    var key :| key in rest;
    var all := rest + s.breaker.circuits.Keys;
    var call, fail := Event(now, AcquireFor(key)), Event(now, Fail(|s.permits|));
    if |s.breaker.order| >= cfg.maximum {
      TroubleHarms(cfg, s.breaker, key);
      events := HarmfulCallShows(cfg, s, t, key, now, all);
    } else {
      OneMoreTroubled(cfg, s, t, key, now);
      var s1, t1 := Step(cfg, s, call).0, IdealStep(cfg, t, call).0;
      var s2, t2 := Step(cfg, s1, fail).0, IdealStep(cfg, t1, fail).0;
      var later := TooManyShow(cfg, s2, t2, rest - {key}, now);
      Prepend(cfg, s1, t1, fail, later, now);
      Prepend(cfg, s, t, call, [fail] + later, now);
      events := [call] + ([fail] + later);
      assert rest - {key} + s2.breaker.circuits.Keys == all;
      TouchesMore(fail, later, all, all);
      TouchesMore(call, [fail] + later, all, all);
    }
  }

  lemma TroubleHarms(cfg: Config, b: Breaker, key: Key)
    requires ValidConfig(cfg) && Inv(cfg, b) && Troubled(b) && key !in b.circuits && |b.order| >= cfg.maximum
    ensures !Harmless(cfg, b, key)
  {
    var i := VictimIsLeastRecent(b);
  }

  /** The bound on origins is exact: the breaker's deletions are unobservable in
      every run touching a set of origins exactly when the breaker may hold as
      many circuits as there are origins. */
  lemma DeletionsUnobservableIff(cfg: Config, origins: set<Key>)
    requires ValidConfig(cfg)
    ensures (forall events :: Touches(events, origins) ==>
        Outcomes(cfg, START, events) == IdealOutcomes(cfg, IDEAL_START, events))
      <==> |origins| <= cfg.maximum
  {
    hide Outcomes, IdealOutcomes, HarmlessRun;
    if |origins| <= cfg.maximum {
      forall events | Touches(events, origins)
        ensures Outcomes(cfg, START, events) == IdealOutcomes(cfg, IDEAL_START, events)
      {
        DeletionsUnobservable(cfg, events, origins);
      }
    } else {
      var events := TooManyShow(cfg, START, IDEAL_START, origins, 0);
      assert origins + START.breaker.circuits.Keys == origins;
    }
  }
}
