/** Whole runs of the breaker. Any permit may be completed at any later step,
    or never, and completing one twice does nothing. */
module CircuitRuns {
  import opened Arithmetic
  import opened Text
  import opened CircuitModel

  datatype Permit = Permit(key: Key, probe: bool, done: bool)

  datatype Action =
    | AcquireFor(key: Key)
    | Succeed(permit: nat)
    | Fail(permit: nat)
    | GiveUp(permit: nat)

  /** A call at the time its clock reads. */
  datatype Event = Event(now: int, action: Action)

  datatype System = System(breaker: Breaker, permits: seq<Permit>)

  const START := System(EMPTY, [])

  /** The first completion of a permit is the only one that acts. */
  predicate Effective(permits: seq<Permit>, a: Action) {
    !a.AcquireFor? && a.permit < |permits| && !permits[a.permit].done
  }

  function Spend(permits: seq<Permit>, a: Action): seq<Permit>
    requires Effective(permits, a)
  {
    permits[a.permit := permits[a.permit].(done := true)]
  }

  function Issue(permits: seq<Permit>, key: Key, outcome: Outcome): seq<Permit> {
    match outcome
    case Denied(_) => permits
    case Granted(probe) => permits + [Permit(key, probe, false)]
  }

  function Step(cfg: Config, s: System, e: Event): (System, Option<Outcome>)
    requires Consistent(s.breaker)
  {
    match e.action
    case AcquireFor(key) =>
      var (b, outcome) := Acquire(cfg, s.breaker, key, e.now);
      (System(b, Issue(s.permits, key, outcome)), Some(outcome))
    case _ =>
      if !Effective(s.permits, e.action) then (s, None)
      else
        (System(Settle(cfg, s.breaker, s.permits[e.action.permit], e), Spend(s.permits, e.action)), None)
  }

  function Settle(cfg: Config, b: Breaker, p: Permit, e: Event): Breaker
    requires Consistent(b) && !e.action.AcquireFor?
  {
    match e.action
    case Succeed(_) => RecordSuccess(b, p.key)
    case Fail(_) => RecordFailure(cfg, b, p.key, e.now)
    case GiveUp(_) => Abandon(b, p.key, p.probe, e.now)
  }

  lemma StepKeeps(cfg: Config, s: System, e: Event)
    requires ValidConfig(cfg) && Inv(cfg, s.breaker)
    ensures Inv(cfg, Step(cfg, s, e).0.breaker)
  {
    match e.action
    case AcquireFor(key) => AcquireKeeps(cfg, s.breaker, key, e.now);
    case _ =>
      if Effective(s.permits, e.action) {
        var p := s.permits[e.action.permit];
        RecordSuccessKeeps(cfg, s.breaker, p.key);
        RecordFailureKeeps(cfg, s.breaker, p.key, e.now);
        AbandonKeeps(cfg, s.breaker, p.key, p.probe, e.now);
      }
  }

  /** The state after a whole run; the invariant holds throughout. */
  function After(cfg: Config, s: System, events: seq<Event>): (t: System)
    requires ValidConfig(cfg) && Inv(cfg, s.breaker)
    ensures Inv(cfg, t.breaker)
    decreases |events|
  {
    if events == [] then s
    else
      StepKeeps(cfg, s, events[0]);
      After(cfg, Step(cfg, s, events[0]).0, events[1..])
  }

  predicate NonDecreasing(events: seq<Event>, clock: int) {
    events != [] ==> clock <= events[0].now && NonDecreasing(events[1..], events[0].now)
  }

  /** What the callers of `acquire` were told, in order. */
  function Outcomes(cfg: Config, s: System, events: seq<Event>): seq<Outcome>
    requires ValidConfig(cfg) && Inv(cfg, s.breaker)
    decreases |events|
  {
    if events == [] then []
    else
      StepKeeps(cfg, s, events[0]);
      var (t, outcome) := Step(cfg, s, events[0]);
      (if outcome.Some? then [outcome.value] else []) + Outcomes(cfg, t, events[1..])
  }

  // ----- the unbounded reference: one circuit per origin, never deleted -----

  type Ideal = map<Key, Circuit>

  const FRESH := Circuit(Closed, 0, 0, 0)

  function Look(m: map<Key, Circuit>, key: Key): Circuit {
    if key in m then m[key] else FRESH
  }

  function IdealAcquire(m: Ideal, key: Key, now: int): (Ideal, Outcome) {
    var c := Look(m, key);
    match c.state
    case Open =>
      if now < c.openedUntil then (m, Denied(RetryAfter(c.openedUntil - now)))
      else (m[key := c.(state := HalfOpen)], Granted(true))
    case HalfOpen => (m, Denied(1))
    case Closed => (m, Granted(false))
  }

  function IdealFailure(cfg: Config, m: Ideal, key: Key, now: int): Ideal {
    var c := Look(m, key);
    match c.state
    case HalfOpen => m[key := c.(state := Open, openedUntil := now + cfg.openMs)]
    case Open => m[key := c.(openedUntil := Max(c.openedUntil, now + cfg.openMs))]
    case Closed =>
      if c.failures + 1 >= cfg.threshold
      then m[key := c.(failures := c.failures + 1, state := Open, openedUntil := now + cfg.openMs)]
      else m[key := c.(failures := c.failures + 1)]
  }

  function IdealAbandon(m: Ideal, key: Key, probe: bool, now: int): Ideal {
    var c := Look(m, key);
    if probe && c.state == HalfOpen then m[key := c.(state := Open, openedUntil := now)] else m
  }

  datatype IdealSystem = IdealSystem(circuits: Ideal, permits: seq<Permit>)

  const IDEAL_START := IdealSystem(map[], [])

  function IdealStep(cfg: Config, s: IdealSystem, e: Event): (IdealSystem, Option<Outcome>) {
    match e.action
    case AcquireFor(key) =>
      var (m, outcome) := IdealAcquire(s.circuits, key, e.now);
      (IdealSystem(m, Issue(s.permits, key, outcome)), Some(outcome))
    case _ =>
      if !Effective(s.permits, e.action) then (s, None)
      else
        var p := s.permits[e.action.permit];
        var m := match e.action
          case Succeed(_) => s.circuits[p.key := FRESH]
          case Fail(_) => IdealFailure(cfg, s.circuits, p.key, e.now)
          case _ => IdealAbandon(s.circuits, p.key, p.probe, e.now);
        (IdealSystem(m, Spend(s.permits, e.action)), None)
  }

  function IdealOutcomes(cfg: Config, s: IdealSystem, events: seq<Event>): seq<Outcome>
    decreases |events|
  {
    if events == [] then []
    else
      var (t, outcome) := IdealStep(cfg, s, events[0]);
      (if outcome.Some? then [outcome.value] else []) + IdealOutcomes(cfg, t, events[1..])
  }

  // ----- the two agree -----

  /** What can matter about a circuit: not when it was touched, and not the
      deadline of a closed one. */
  predicate SameCircuit(a: Circuit, b: Circuit) {
    a.state == b.state && a.failures == b.failures && (a.state != Closed ==> a.openedUntil == b.openedUntil)
  }

  ghost predicate SameCircuits(b: Breaker, m: Ideal) {
    forall key :: SameCircuit(Look(b.circuits, key), Look(m, key))
  }

  /** A caller can tell beforehand whether making room would lose anything. */
  ghost predicate Harmless(cfg: Config, b: Breaker, key: Key)
    requires Consistent(b)
  {
    || key in b.circuits
    || |b.order| < cfg.maximum
    || (Victim(b).Some? && Victim(b).value in b.circuits && b.circuits[Victim(b).value].failures == 0)
  }

  /** Making room for a key goes unnoticed exactly when it is harmless. */
  lemma CreationUnnoticedIff(cfg: Config, b: Breaker, m: Ideal, key: Key, now: int)
    requires ValidConfig(cfg) && Inv(cfg, b) && SameCircuits(b, m)
    ensures var found := FindOrCreate(cfg, b, key, now);
      Harmless(cfg, b, key) <==> found.Some? && SameCircuits(found.value, m)
  {
    var i := VictimIsLeastRecent(b);
    assert SameCircuit(Look(b.circuits, key), Look(m, key));
    var found := FindOrCreate(cfg, b, key, now);
    if key !in b.circuits && |b.order| >= cfg.maximum && Victim(b).Some? {
      var victim := Victim(b).value;
      assert SameCircuit(Look(b.circuits, victim), Look(m, victim));
      assert Look(found.value.circuits, victim) == FRESH;
      if b.circuits[victim].failures != 0 {
        assert !SameCircuit(Look(found.value.circuits, victim), Look(m, victim));
      }
    }
  }

  ghost predicate HarmlessStep(cfg: Config, s: System, e: Event)
    requires Consistent(s.breaker)
  {
    match e.action
    case AcquireFor(key) => Harmless(cfg, s.breaker, key)
    case Fail(i) => Effective(s.permits, e.action) ==> Harmless(cfg, s.breaker, s.permits[i].key)
    case _ => true
  }

  ghost predicate HarmlessRun(cfg: Config, s: System, events: seq<Event>)
    requires ValidConfig(cfg) && Inv(cfg, s.breaker)
    decreases |events|
  {
    if events == [] then true
    else
      StepKeeps(cfg, s, events[0]);
      HarmlessStep(cfg, s, events[0]) && HarmlessRun(cfg, Step(cfg, s, events[0]).0, events[1..])
  }

  ghost predicate Agree(s: System, t: IdealSystem) {
    s.permits == t.permits && SameCircuits(s.breaker, t.circuits)
  }

  lemma AcquireAgrees(cfg: Config, b: Breaker, m: Ideal, key: Key, now: int)
    requires ValidConfig(cfg) && Inv(cfg, b) && SameCircuits(b, m) && Harmless(cfg, b, key)
    ensures Acquire(cfg, b, key, now).1 == IdealAcquire(m, key, now).1
    ensures SameCircuits(Acquire(cfg, b, key, now).0, IdealAcquire(m, key, now).0)
  {
    hide FindOrCreate, Harmless, AcquireFound;
    AcquireEffect(cfg, b, key, now);
    CreationUnnoticedIff(cfg, b, m, key, now);
    FindOrCreateKeeps(cfg, b, key, now);
    var b1 := FindOrCreate(cfg, b, key, now).value;
    AcquireFoundEffect(b1, key, now);
    assert SameCircuit(Look(b1.circuits, key), Look(m, key));
    var b', m' := Acquire(cfg, b, key, now).0, IdealAcquire(m, key, now).0;
    forall k ensures SameCircuit(Look(b'.circuits, k), Look(m', k)) {
      assert SameCircuit(Look(b1.circuits, k), Look(m, k));
    }
  }

  lemma FailureAgrees(cfg: Config, b: Breaker, m: Ideal, key: Key, now: int)
    requires ValidConfig(cfg) && Inv(cfg, b) && SameCircuits(b, m) && Harmless(cfg, b, key)
    ensures SameCircuits(RecordFailure(cfg, b, key, now), IdealFailure(cfg, m, key, now))
  {
    hide FindOrCreate, FailFound, Harmless;
    CreationUnnoticedIff(cfg, b, m, key, now);
    FindOrCreateKeeps(cfg, b, key, now);
    var b1 := FindOrCreate(cfg, b, key, now).value;
    FailFoundEffect(cfg, b1, key, now);
    assert SameCircuit(Look(b1.circuits, key), Look(m, key));
    var b', m' := RecordFailure(cfg, b, key, now), IdealFailure(cfg, m, key, now);
    forall k ensures SameCircuit(Look(b'.circuits, k), Look(m', k)) {
      assert SameCircuit(Look(b1.circuits, k), Look(m, k));
    }
  }

  lemma DeletionAgrees(b: Breaker, m: Ideal, key: Key, probe: bool, now: int)
    requires Consistent(b) && SameCircuits(b, m)
    ensures SameCircuits(RecordSuccess(b, key), m[key := FRESH])
    ensures SameCircuits(Abandon(b, key, probe, now), IdealAbandon(m, key, probe, now))
  {
    assert SameCircuit(Look(b.circuits, key), Look(m, key));
    forall k
      ensures SameCircuit(Look(RecordSuccess(b, key).circuits, k), Look(m[key := FRESH], k))
      ensures SameCircuit(Look(Abandon(b, key, probe, now).circuits, k), Look(IdealAbandon(m, key, probe, now), k))
    {
      assert SameCircuit(Look(b.circuits, k), Look(m, k));
    }
  }

  lemma StepAgrees(cfg: Config, s: System, t: IdealSystem, e: Event)
    requires ValidConfig(cfg) && Inv(cfg, s.breaker) && Agree(s, t) && HarmlessStep(cfg, s, e)
    ensures Step(cfg, s, e).1 == IdealStep(cfg, t, e).1
    ensures Agree(Step(cfg, s, e).0, IdealStep(cfg, t, e).0)
  {
    match e.action
    case AcquireFor(key) => AcquireAgrees(cfg, s.breaker, t.circuits, key, e.now);
    case _ =>
      if Effective(s.permits, e.action) {
        var p := s.permits[e.action.permit];
        DeletionAgrees(s.breaker, t.circuits, p.key, p.probe, e.now);
        if e.action.Fail? {
          FailureAgrees(cfg, s.breaker, t.circuits, p.key, e.now);
        }
      }
  }

  /** As long as making room is harmless, nobody can tell the bounded breaker
      from the unbounded one, however late permits complete. */
  lemma {:induction false} HarmlessRunsAgree(cfg: Config, s: System, t: IdealSystem, events: seq<Event>)
    requires ValidConfig(cfg) && Inv(cfg, s.breaker) && Agree(s, t) && HarmlessRun(cfg, s, events)
    ensures Outcomes(cfg, s, events) == IdealOutcomes(cfg, t, events)
    decreases |events|
  {
    if events != [] {
      StepKeeps(cfg, s, events[0]);
      StepAgrees(cfg, s, t, events[0]);
      HarmlessRunsAgree(cfg, Step(cfg, s, events[0]).0, IdealStep(cfg, t, events[0]).0, events[1..]);
    }
  }

  ghost predicate Touches(events: seq<Event>, origins: set<Key>) {
    forall i :: 0 <= i < |events| && events[i].action.AcquireFor? ==> events[i].action.key in origins
  }

  ghost predicate Within(s: System, origins: set<Key>) {
    && (forall k :: k in s.breaker.circuits ==> k in origins)
    && forall i :: 0 <= i < |s.permits| ==> s.permits[i].key in origins
  }

  lemma {:induction false} DistinctFits(order: seq<Key>, origins: set<Key>)
    requires forall i, j :: 0 <= i < j < |order| ==> order[i] != order[j]
    requires forall k :: k in order ==> k in origins
    ensures |order| <= |origins|
    ensures forall k :: k in origins && k !in order ==> |order| < |origins|
  {
    if order != [] {
      var rest := order[1..];
      assert order == [order[0]] + rest;
      assert order[0] !in rest;
      DistinctFits(rest, origins - {order[0]});
    }
  }

  lemma RoomForAll(cfg: Config, b: Breaker, origins: set<Key>, key: Key)
    requires Consistent(b) && |origins| <= cfg.maximum && key in origins
    requires forall k :: k in b.circuits ==> k in origins
    ensures Harmless(cfg, b, key)
  {
    DistinctFits(b.order, origins);
  }

  lemma FewOriginsHarmless(cfg: Config, s: System, events: seq<Event>, origins: set<Key>)
    requires ValidConfig(cfg) && Inv(cfg, s.breaker) && Within(s, origins)
    requires |origins| <= cfg.maximum && Touches(events, origins)
    ensures HarmlessRun(cfg, s, events)
    decreases |events|
  {
    if events != [] {
      var e := events[0];
      StepKeeps(cfg, s, e);
      StepWithin(cfg, s, e, origins);
      if e.action.AcquireFor? {
        RoomForAll(cfg, s.breaker, origins, e.action.key);
      } else if Effective(s.permits, e.action) {
        RoomForAll(cfg, s.breaker, origins, s.permits[e.action.permit].key);
      }
      FewOriginsHarmless(cfg, Step(cfg, s, e).0, events[1..], origins);
    }
  }

  lemma StepWithin(cfg: Config, s: System, e: Event, origins: set<Key>)
    requires ValidConfig(cfg) && Inv(cfg, s.breaker) && Within(s, origins)
    requires e.action.AcquireFor? ==> e.action.key in origins
    ensures Within(Step(cfg, s, e).0, origins)
  {
    hide Acquire, RecordSuccess, RecordFailure, Abandon;
    if e.action.AcquireFor? {
      AcquireEffect(cfg, s.breaker, e.action.key, e.now);
    } else if Effective(s.permits, e.action) {
      var p := s.permits[e.action.permit];
      RecordSuccessEffect(s.breaker, p.key);
      RecordFailureEffect(cfg, s.breaker, p.key, e.now);
      AbandonEffect(s.breaker, p.key, p.probe, e.now);
    }
  }

  /** The breaker's deletions are unobservable: in every run that touches at
      most `maximum` origins, every caller is told what an unbounded breaker,
      where each origin starts closed with no failures, would have told it. */
  lemma DeletionsUnobservable(cfg: Config, events: seq<Event>, origins: set<Key>)
    requires ValidConfig(cfg) && |origins| <= cfg.maximum && Touches(events, origins)
    ensures Outcomes(cfg, START, events) == IdealOutcomes(cfg, IDEAL_START, events)
  {
    FewOriginsHarmless(cfg, START, events, origins);
    HarmlessRunsAgree(cfg, START, IDEAL_START, events);
  }
}
