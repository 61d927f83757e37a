/** The circuit gauge and counters, driven by the breaker's transitions. */
module CircuitMetrics {
  import opened Arithmetic
  import opened Text
  import opened CircuitModel
  import opened CircuitRuns

  /** The per-target transition counters and the unavailable-circuits gauge. */
  datatype Counters = Counters(toClosed: nat, toOpen: nat, toHalfOpen: nat, unavailable: nat)

  const ZERO := Counters(0, 0, 0, 0)

  /** One recorded transition, with the source's clamp at zero. */
  function Record(c: Counters, t: Transition): Counters {
    if t.previous == t.next then c
    else
      var counted := match t.next
        case Closed => c.(toClosed := c.toClosed + 1)
        case Open => c.(toOpen := c.toOpen + 1)
        case HalfOpen => c.(toHalfOpen := c.toHalfOpen + 1);
      if t.previous == Closed then counted.(unavailable := c.unavailable + 1)
      else if t.next == Closed then counted.(unavailable := Max(0, c.unavailable - 1))
      else counted
  }

  class OperationalMetrics {
    var counters: Counters

    constructor ()
      ensures counters == ZERO
    {
      counters := ZERO;
    }

    method RecordUpstreamCircuitTransition(previous: CircuitState, next: CircuitState)
      modifies this
      ensures counters == Record(old(counters), Transition(previous, next))
    {
      if previous == next {
        return;
      }
      match next {
        case Closed => counters := counters.(toClosed := counters.toClosed + 1);
        case Open => counters := counters.(toOpen := counters.toOpen + 1);
        case HalfOpen => counters := counters.(toHalfOpen := counters.toHalfOpen + 1);
      }
      if previous == Closed {
        counters := counters.(unavailable := counters.unavailable + 1);
      } else if next == Closed {
        counters := counters.(unavailable := Max(0, counters.unavailable - 1));
      }
    }
  }

  function Counted(log: seq<Transition>): Counters {
    if log == [] then ZERO else Record(Counted(log[..|log| - 1]), log[|log| - 1])
  }

  /** The clamp acts when a gauge already at zero is told a circuit closed. */
  predicate ClampActs(log: seq<Transition>) {
    log != [] &&
    (ClampActs(log[..|log| - 1]) ||
      (log[|log| - 1].previous != Closed && log[|log| - 1].next == Closed && Counted(log[..|log| - 1]).unavailable == 0))
  }

  function ClosedToOpen(log: seq<Transition>): nat {
    if log == [] then 0
    else ClosedToOpen(log[..|log| - 1]) + (if log[|log| - 1] == Transition(Closed, Open) then 1 else 0)
  }

  lemma LogSnoc(log: seq<Transition>, t: Transition)
    ensures Counted(log + [t]) == Record(Counted(log), t)
    ensures ClampActs(log + [t]) <==>
      ClampActs(log) || (t.previous != Closed && t.next == Closed && Counted(log).unavailable == 0)
    ensures ClosedToOpen(log + [t]) == ClosedToOpen(log) + (if t == Transition(Closed, Open) then 1 else 0)
  {
    assert (log + [t])[..|log|] == log;
  }

  function Standing(b: Breaker, state: CircuitState): set<Key> {
    set k | k in b.circuits && b.circuits[k].state == state
  }

  /** The gauge counts the circuits that are not closed, and the counters balance. */
  ghost predicate Balanced(b: Breaker) {
    var c := Counted(b.log);
    var open, half := |Standing(b, Open)|, |Standing(b, HalfOpen)|;
    && c.unavailable == open + half
    && !ClampActs(b.log)
    && ClosedToOpen(b.log) == c.toClosed + c.unavailable
    && c.toHalfOpen + open <= c.toOpen
  }

  lemma SameStanding(b: Breaker, b': Breaker)
    requires Balanced(b) && b'.log == b.log
    requires forall k, st :: st != Closed ==> (k in Standing(b', st) <==> k in Standing(b, st))
    ensures Balanced(b')
  {
    assert Standing(b', Open) == Standing(b, Open);
    assert Standing(b', HalfOpen) == Standing(b, HalfOpen);
  }

  lemma PutBalanced(b: Breaker, key: Key, c: Circuit)
    requires Balanced(b)
    requires if key in b.circuits then c.state == b.circuits[key].state else c.state == Closed
    ensures Balanced(Put(b, key, c))
  {
    SameStanding(b, Put(b, key, c));
  }

  lemma DeleteBalanced(b: Breaker, key: Key)
    requires Balanced(b) && (key in b.circuits ==> b.circuits[key].state == Closed)
    ensures Balanced(Delete(b, key))
  {
    SameStanding(b, Delete(b, key));
  }

  /** The five transitions the breaker makes. */
  predicate Legal(t: Transition) {
    || t == Transition(Closed, Open) || t == Transition(Open, HalfOpen) || t == Transition(HalfOpen, Open)
    || t == Transition(HalfOpen, Closed) || t == Transition(Open, Closed)
  }

  lemma MoveStanding(b: Breaker, key: Key, next: CircuitState)
    requires key in b.circuits && b.circuits[key].state != next
    ensures var previous := b.circuits[key].state;
      var b' := MoveTo(b, key, next);
      && |Standing(b', previous)| == |Standing(b, previous)| - 1
      && |Standing(b', next)| == |Standing(b, next)| + 1
      && forall st :: st != previous && st != next ==> Standing(b', st) == Standing(b, st)
  {
    var previous := b.circuits[key].state;
    var b' := MoveTo(b, key, next);
    assert Standing(b', previous) == Standing(b, previous) - {key};
    assert Standing(b', next) == Standing(b, next) + {key};
    assert key in Standing(b, previous) && key !in Standing(b, next);
    forall st | st != previous && st != next ensures Standing(b', st) == Standing(b, st) {
    }
  }

  lemma MoveBalanced(b: Breaker, key: Key, next: CircuitState)
    requires Balanced(b) && key in b.circuits
    requires b.circuits[key].state == next || Legal(Transition(b.circuits[key].state, next))
    ensures Balanced(MoveTo(b, key, next))
  {
    var previous := b.circuits[key].state;
    if previous != next {
      MoveStanding(b, key, next);
      LogSnoc(b.log, Transition(previous, next));
    }
  }

  lemma ReopenBalanced(b: Breaker, key: Key, until: int)
    requires Balanced(b) && key in b.circuits
    ensures Balanced(Reopen(b, key, until))
  {
    var c := b.circuits[key].(openedUntil := until);
    PutBalanced(b, key, c);
    MoveBalanced(Put(b, key, c), key, Open);
  }

  lemma FindOrCreateBalanced(cfg: Config, b: Breaker, key: Key, now: int)
    requires Consistent(b) && Balanced(b)
    ensures FindOrCreate(cfg, b, key, now).Some? ==> Balanced(FindOrCreate(cfg, b, key, now).value)
  {
    var i := VictimIsLeastRecent(b);
    if key !in b.circuits {
      if |b.order| >= cfg.maximum && Victim(b).Some? {
        DeleteBalanced(b, Victim(b).value);
        PutBalanced(Delete(b, Victim(b).value), key, NewCircuit(now));
      } else {
        PutBalanced(b, key, NewCircuit(now));
      }
    }
  }

  lemma AcquireBalanced(cfg: Config, b: Breaker, key: Key, now: int)
    requires Consistent(b) && Balanced(b)
    ensures Balanced(Acquire(cfg, b, key, now).0)
  {
    FindOrCreateBalanced(cfg, b, key, now);
    FindOrCreateEffect(cfg, b, key, now);
    var found := FindOrCreate(cfg, b, key, now);
    if found.Some? {
      PutBalanced(found.value, key, found.value.circuits[key].(lastTouched := now));
      var b1 := Touch(found.value, key, now);
      if b1.circuits[key].state == Open {
        MoveBalanced(b1, key, HalfOpen);
      }
    }
  }

  lemma FailFoundBalanced(cfg: Config, b: Breaker, key: Key, now: int)
    requires Balanced(b) && key in b.circuits
    ensures Balanced(FailFound(cfg, b, key, now))
  {
    hide Reopen, Balanced;
    var touched := Touch(b, key, now);
    var c := touched.circuits[key];
    PutBalanced(b, key, c);
    if c.state == HalfOpen {
      ReopenBalanced(touched, key, now + cfg.openMs);
    } else if c.state == Open {
      ReopenBalanced(touched, key, Max(c.openedUntil, now + cfg.openMs));
    } else {
      var counted := c.(failures := c.failures + 1);
      PutBalanced(touched, key, counted);
      ReopenBalanced(Put(touched, key, counted), key, now + cfg.openMs);
    }
  }

  lemma FailureBalanced(cfg: Config, b: Breaker, key: Key, now: int)
    requires Consistent(b) && Balanced(b)
    ensures Balanced(RecordFailure(cfg, b, key, now))
  {
    FindOrCreateBalanced(cfg, b, key, now);
    FindOrCreateEffect(cfg, b, key, now);
    if FindOrCreate(cfg, b, key, now).Some? {
      FailFoundBalanced(cfg, FindOrCreate(cfg, b, key, now).value, key, now);
    }
  }

  lemma SettledBalanced(b: Breaker, key: Key, probe: bool, now: int)
    requires Balanced(b)
    ensures Balanced(RecordSuccess(b, key)) && Balanced(Abandon(b, key, probe, now))
  {
    if key in b.circuits {
      MoveBalanced(b, key, Closed);
      DeleteBalanced(MoveTo(b, key, Closed), key);
      ReopenBalanced(b, key, now);
      if b.circuits[key].state == Closed {
        DeleteBalanced(b, key);
      }
    }
  }

  lemma StepBalanced(cfg: Config, s: System, e: Event)
    requires ValidConfig(cfg) && Inv(cfg, s.breaker) && Balanced(s.breaker)
    ensures Balanced(Step(cfg, s, e).0.breaker)
  {
    if e.action.AcquireFor? {
      AcquireBalanced(cfg, s.breaker, e.action.key, e.now);
    } else if Effective(s.permits, e.action) {
      var p := s.permits[e.action.permit];
      FailureBalanced(cfg, s.breaker, p.key, e.now);
      SettledBalanced(s.breaker, p.key, p.probe, e.now);
    }
  }

  lemma {:induction false} RunBalanced(cfg: Config, s: System, events: seq<Event>)
    requires ValidConfig(cfg) && Inv(cfg, s.breaker) && Balanced(s.breaker)
    ensures Balanced(After(cfg, s, events).breaker)
    decreases |events|
  {
    if events != [] {
      StepKeeps(cfg, s, events[0]);
      StepBalanced(cfg, s, events[0]);
      RunBalanced(cfg, Step(cfg, s, events[0]).0, events[1..]);
    }
  }

  // ----- what is recorded is what happens -----

  /** An origin without a circuit stands as a closed one. */
  function StateOf(b: Breaker, key: Key): CircuitState {
    if key in b.circuits then b.circuits[key].state else Closed
  }

  function Change(b: Breaker, b': Breaker, key: Key): seq<Transition> {
    if StateOf(b, key) == StateOf(b', key) then [] else [Transition(StateOf(b, key), StateOf(b', key))]
  }

  lemma AcquireLogged(cfg: Config, b: Breaker, key: Key, now: int)
    requires Consistent(b)
    ensures var b' := Acquire(cfg, b, key, now).0; b'.log == b.log + Change(b, b', key)
  {
    FindOrCreateEffect(cfg, b, key, now);
    assert b.log + [] == b.log;
  }

  lemma FailFoundLogged(cfg: Config, b: Breaker, key: Key, now: int)
    requires key in b.circuits
    ensures var b' := FailFound(cfg, b, key, now); b'.log == b.log + Change(b, b', key)
  {
    assert b.log + [] == b.log;
  }

  lemma FailureLogged(cfg: Config, b: Breaker, key: Key, now: int)
    requires Consistent(b)
    ensures var b' := RecordFailure(cfg, b, key, now); b'.log == b.log + Change(b, b', key)
  {
    hide FailFound;
    FindOrCreateEffect(cfg, b, key, now);
    assert b.log + [] == b.log;
    if FindOrCreate(cfg, b, key, now).Some? {
      FailFoundLogged(cfg, FindOrCreate(cfg, b, key, now).value, key, now);
    }
  }

  lemma SettledLogged(b: Breaker, key: Key, probe: bool, now: int)
    ensures RecordSuccess(b, key).log == b.log + Change(b, RecordSuccess(b, key), key)
    ensures Abandon(b, key, probe, now).log == b.log + Change(b, Abandon(b, key, probe, now), key)
  {
    assert b.log + [] == b.log;
  }

  /** The origin a step may change. */
  function Subject(s: System, e: Event): Option<Key> {
    if e.action.AcquireFor? then Some(e.action.key)
    else if Effective(s.permits, e.action) then Some(s.permits[e.action.permit].key)
    else None
  }

  /** Every step tells the observer exactly the change of state it makes. */
  lemma StepLogged(cfg: Config, s: System, e: Event)
    requires ValidConfig(cfg) && Inv(cfg, s.breaker)
    ensures var t := Step(cfg, s, e).0;
      t.breaker.log == s.breaker.log + match Subject(s, e)
        case None => []
        case Some(key) => Change(s.breaker, t.breaker, key)
    ensures forall k :: Subject(s, e) != Some(k) ==> StateOf(Step(cfg, s, e).0.breaker, k) == StateOf(s.breaker, k)
  {
    hide Acquire, RecordFailure, RecordSuccess, Abandon;
    assert s.breaker.log + [] == s.breaker.log;
    if e.action.AcquireFor? {
      AcquireLogged(cfg, s.breaker, e.action.key, e.now);
      AcquireEffect(cfg, s.breaker, e.action.key, e.now);
      OthersStand(s.breaker, Step(cfg, s, e).0.breaker, e.action.key);
    } else if Effective(s.permits, e.action) {
      var p := s.permits[e.action.permit];
      FailureLogged(cfg, s.breaker, p.key, e.now);
      SettledLogged(s.breaker, p.key, p.probe, e.now);
      RecordSuccessEffect(s.breaker, p.key);
      RecordFailureEffect(cfg, s.breaker, p.key, e.now);
      AbandonEffect(s.breaker, p.key, p.probe, e.now);
      OthersStand(s.breaker, Step(cfg, s, e).0.breaker, p.key);
    }
  }

  lemma OthersStand(b: Breaker, b': Breaker, key: Key)
    requires OthersKept(b, b', key)
    ensures forall k :: k != key ==> StateOf(b', k) == StateOf(b, k)
  {
  }

  /** Transitions into a state. */
  function Entering(log: seq<Transition>, state: CircuitState): nat {
    if log == [] then 0
    else
      var t := log[|log| - 1];
      Entering(log[..|log| - 1], state) + (if t.next == state && t.previous != state then 1 else 0)
  }

  lemma EnteringSnoc(log: seq<Transition>, t: Transition, state: CircuitState)
    ensures Entering(log + [t], state) == Entering(log, state) + (if t.next == state && t.previous != state then 1 else 0)
  {
    assert (log + [t])[..|log|] == log;
  }

  lemma {:induction false} CountersCount(log: seq<Transition>)
    ensures var c := Counted(log);
      c.toClosed == Entering(log, Closed) && c.toOpen == Entering(log, Open) && c.toHalfOpen == Entering(log, HalfOpen)
  {
    if log != [] {
      CountersCount(log[..|log| - 1]);
    }
  }

  function ProbesIn(outcomes: seq<Outcome>): nat {
    if outcomes == [] then 0 else (if outcomes[0] == Granted(true) then 1 else 0) + ProbesIn(outcomes[1..])
  }

  /** A transition to half-open is recorded exactly with a probe. */
  lemma StepProbes(cfg: Config, s: System, e: Event)
    requires ValidConfig(cfg) && Inv(cfg, s.breaker)
    ensures var (t, outcome) := Step(cfg, s, e);
      Entering(t.breaker.log, HalfOpen) == Entering(s.breaker.log, HalfOpen)
        + (if outcome == Some(Granted(true)) then 1 else 0)
  {
    hide Acquire, RecordFailure, RecordSuccess, Abandon, Entering;
    StepLogged(cfg, s, e);
    assert s.breaker.log + [] == s.breaker.log;
    var t := Step(cfg, s, e).0;
    if Subject(s, e).Some? {
      var key := Subject(s, e).value;
      EnteringSnoc(s.breaker.log, Transition(StateOf(s.breaker, key), StateOf(t.breaker, key)), HalfOpen);
      if e.action.AcquireFor? {
        AcquireEffect(cfg, s.breaker, key, e.now);
      } else {
        var p := s.permits[e.action.permit];
        RecordSuccessEffect(s.breaker, key);
        RecordFailureEffect(cfg, s.breaker, key, e.now);
        AbandonEffect(s.breaker, key, p.probe, e.now);
      }
    }
  }

  lemma {:induction false} RunProbes(cfg: Config, s: System, events: seq<Event>)
    requires ValidConfig(cfg) && Inv(cfg, s.breaker)
    ensures Entering(After(cfg, s, events).breaker.log, HalfOpen)
         == Entering(s.breaker.log, HalfOpen) + ProbesIn(Outcomes(cfg, s, events))
    decreases |events|
  {
    hide Step, Entering;
    if events != [] {
      StepKeeps(cfg, s, events[0]);
      StepProbes(cfg, s, events[0]);
      var (t, outcome) := Step(cfg, s, events[0]);
      RunProbes(cfg, t, events[1..]);
      var rest := Outcomes(cfg, t, events[1..]);
      if outcome.Some? {
        assert ([outcome.value] + rest)[1..] == rest;
      } else {
        assert [] + rest == rest;
      }
    }
  }

  /** After every run from the start: the gauge is the number of circuits that
      are not closed, its clamp never acted, every opening is either closed again
      or still counted, and half-open transitions never exceed open ones. */
  lemma GaugeIsExact(cfg: Config, events: seq<Event>)
    requires ValidConfig(cfg)
    ensures var b := After(cfg, START, events).breaker;
      var c := Counted(b.log);
      && c.unavailable == |set k | k in b.circuits && b.circuits[k].state != Closed|
      && !ClampActs(b.log)
      && ClosedToOpen(b.log) == c.toClosed + c.unavailable
      && c.toHalfOpen <= c.toOpen
      && c.toHalfOpen == ProbesIn(Outcomes(cfg, START, events))
      && c.toClosed == Entering(b.log, Closed) && c.toOpen == Entering(b.log, Open)
  {
    CountersCount(After(cfg, START, events).breaker.log);
    RunProbes(cfg, START, events);
    assert Standing(EMPTY, Open) == {} && Standing(EMPTY, HalfOpen) == {};
    assert Balanced(START.breaker);
    RunBalanced(cfg, START, events);
    var b := After(cfg, START, events).breaker;
    assert (set k | k in b.circuits && b.circuits[k].state != Closed) == Standing(b, Open) + Standing(b, HalfOpen);
    assert Standing(b, Open) !! Standing(b, HalfOpen);
  }
}
