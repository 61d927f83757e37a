/** Half-open episodes and deadlines over whole runs, and what late permits do
    to the documented "exactly one probe". */
module CircuitEpisodes {
  import opened Arithmetic
  import opened Text
  import opened CircuitModel
  import opened CircuitRuns

  predicate InState(s: System, key: Key, state: CircuitState) {
    key in s.breaker.circuits && s.breaker.circuits[key].state == state
  }

  predicate GrantsProbe(outcome: Option<Outcome>) {
    outcome == Some(Granted(true))
  }

  /** Everything a step can do to a circuit that is not closed, or not there. */
  lemma StepEffect(cfg: Config, s: System, e: Event)
    requires ValidConfig(cfg) && Inv(cfg, s.breaker)
    ensures e.action.AcquireFor? ==> OthersKept(s.breaker, Step(cfg, s, e).0.breaker, e.action.key)
    ensures Effective(s.permits, e.action) ==>
      OthersKept(s.breaker, Step(cfg, s, e).0.breaker, s.permits[e.action.permit].key)
  {
    if e.action.AcquireFor? {
      AcquireEffect(cfg, s.breaker, e.action.key, e.now);
    } else if Effective(s.permits, e.action) {
      var p := s.permits[e.action.permit];
      RecordSuccessEffect(s.breaker, p.key);
      RecordFailureEffect(cfg, s.breaker, p.key, e.now);
      AbandonEffect(s.breaker, p.key, p.probe, e.now);
    }
  }

  /** A probe is granted exactly by the step that starts a half-open episode. */
  lemma ProbeIffEpisodeStarts(cfg: Config, s: System, e: Event, key: Key)
    requires ValidConfig(cfg) && Inv(cfg, s.breaker)
    ensures var (t, outcome) := Step(cfg, s, e);
      !InState(s, key, HalfOpen) && InState(t, key, HalfOpen) <==>
      e.action == AcquireFor(key) && GrantsProbe(outcome)
  {
    StepEffect(cfg, s, e);
    if e.action.AcquireFor? {
      AcquireEffect(cfg, s.breaker, e.action.key, e.now);
    } else if Effective(s.permits, e.action) {
      var p := s.permits[e.action.permit];
      RecordSuccessEffect(s.breaker, p.key);
      RecordFailureEffect(cfg, s.breaker, p.key, e.now);
      AbandonEffect(s.breaker, p.key, p.probe, e.now);
    }
  }

  /** During an episode every caller is refused, and the episode ends exactly
      when some permit for the key completes: by success, by failure, or by
      abandoning a probe. Eviction never ends it. */
  lemma EpisodeEndsIff(cfg: Config, s: System, e: Event, key: Key)
    requires ValidConfig(cfg) && Inv(cfg, s.breaker) && InState(s, key, HalfOpen)
    ensures var (t, outcome) := Step(cfg, s, e);
      && (e.action == AcquireFor(key) ==> outcome == Some(Denied(1)))
      && (!InState(t, key, HalfOpen) <==>
            && Effective(s.permits, e.action) && s.permits[e.action.permit].key == key
            && (e.action.GiveUp? ==> s.permits[e.action.permit].probe))
  {
    StepEffect(cfg, s, e);
    if e.action.AcquireFor? {
      AcquireEffect(cfg, s.breaker, e.action.key, e.now);
    } else if Effective(s.permits, e.action) {
      var p := s.permits[e.action.permit];
      RecordSuccessEffect(s.breaker, p.key);
      RecordFailureEffect(cfg, s.breaker, p.key, e.now);
      AbandonEffect(s.breaker, p.key, p.probe, e.now);
    }
  }

  // ----- counting -----

  function Probes(cfg: Config, s: System, events: seq<Event>, key: Key): nat
    requires ValidConfig(cfg) && Inv(cfg, s.breaker)
    decreases |events|
  {
    if events == [] then 0
    else
      StepKeeps(cfg, s, events[0]);
      var (t, outcome) := Step(cfg, s, events[0]);
      (if events[0].action == AcquireFor(key) && GrantsProbe(outcome) then 1 else 0) + Probes(cfg, t, events[1..], key)
  }

  /** Entries into the half-open state. */
  function Episodes(cfg: Config, s: System, events: seq<Event>, key: Key): nat
    requires ValidConfig(cfg) && Inv(cfg, s.breaker)
    decreases |events|
  {
    if events == [] then 0
    else
      StepKeeps(cfg, s, events[0]);
      var t := Step(cfg, s, events[0]).0;
      (if !InState(s, key, HalfOpen) && InState(t, key, HalfOpen) then 1 else 0) + Episodes(cfg, t, events[1..], key)
  }

  /** Grants of any kind made to a key while its circuit is half-open. */
  function GrantsInside(cfg: Config, s: System, events: seq<Event>, key: Key): nat
    requires ValidConfig(cfg) && Inv(cfg, s.breaker)
    decreases |events|
  {
    if events == [] then 0
    else
      StepKeeps(cfg, s, events[0]);
      var (t, outcome) := Step(cfg, s, events[0]);
      (if InState(s, key, HalfOpen) && events[0].action == AcquireFor(key) && outcome.Some? && outcome.value.Granted?
       then 1 else 0)
        + GrantsInside(cfg, t, events[1..], key)
  }

  /** In every run each half-open episode grants exactly one permit: the one
      that starts it. */
  lemma {:induction false} OnePermitPerEpisode(cfg: Config, s: System, events: seq<Event>, key: Key)
    requires ValidConfig(cfg) && Inv(cfg, s.breaker)
    ensures Probes(cfg, s, events, key) == Episodes(cfg, s, events, key)
    ensures GrantsInside(cfg, s, events, key) == 0
    decreases |events|
  {
    if events != [] {
      StepKeeps(cfg, s, events[0]);
      ProbeIffEpisodeStarts(cfg, s, events[0], key);
      if InState(s, key, HalfOpen) {
        EpisodeEndsIff(cfg, s, events[0], key);
      }
      OnePermitPerEpisode(cfg, Step(cfg, s, events[0]).0, events[1..], key);
    }
  }

  // ----- deadlines -----

  /** A completed permit reports success for this key. */
  predicate SucceedsFor(s: System, e: Event, key: Key) {
    e.action.Succeed? && Effective(s.permits, e.action) && s.permits[e.action.permit].key == key
  }

  ghost predicate NoSuccessFor(cfg: Config, s: System, events: seq<Event>, key: Key)
    requires ValidConfig(cfg) && Inv(cfg, s.breaker)
    decreases |events|
  {
    if events == [] then true
    else
      StepKeeps(cfg, s, events[0]);
      !SucceedsFor(s, events[0], key) && NoSuccessFor(cfg, Step(cfg, s, events[0]).0, events[1..], key)
  }

  /** Every acquire for the key before the deadline is refused. */
  ghost predicate RefusedBefore(cfg: Config, s: System, events: seq<Event>, key: Key, deadline: int)
    requires ValidConfig(cfg) && Inv(cfg, s.breaker)
    decreases |events|
  {
    if events == [] then true
    else
      StepKeeps(cfg, s, events[0]);
      var (t, outcome) := Step(cfg, s, events[0]);
      && (events[0].action == AcquireFor(key) && events[0].now < deadline ==> outcome.Some? && outcome.value.Denied?)
      && RefusedBefore(cfg, t, events[1..], key, deadline)
  }

  /** Unavailable with a deadline at or after `deadline`; a probe is out only
      once the clock has reached the deadline it waited for. */
  predicate Unavailable(s: System, key: Key, deadline: int, clock: int) {
    && key in s.breaker.circuits
    && s.breaker.circuits[key].state != Closed
    && deadline <= s.breaker.circuits[key].openedUntil
    && (s.breaker.circuits[key].state == HalfOpen ==> s.breaker.circuits[key].openedUntil <= clock)
  }

  lemma UnavailableStep(cfg: Config, s: System, e: Event, key: Key, deadline: int, clock: int)
    requires ValidConfig(cfg) && Inv(cfg, s.breaker) && Unavailable(s, key, deadline, clock) && clock <= e.now
    requires !SucceedsFor(s, e, key)
    ensures var (t, outcome) := Step(cfg, s, e);
      && Unavailable(t, key, s.breaker.circuits[key].openedUntil, e.now)
      && (e.action == AcquireFor(key) && e.now < deadline ==> outcome.Some? && outcome.value.Denied?)
  {
    StepEffect(cfg, s, e);
    if e.action.AcquireFor? {
      AcquireEffect(cfg, s.breaker, e.action.key, e.now);
    } else if Effective(s.permits, e.action) {
      var p := s.permits[e.action.permit];
      RecordSuccessEffect(s.breaker, p.key);
      RecordFailureEffect(cfg, s.breaker, p.key, e.now);
      AbandonEffect(s.breaker, p.key, p.probe, e.now);
    }
  }

  /** Until some permit reports success for it, an unavailable circuit stays
      unavailable, its deadline never decreases, and nobody is let through before
      the deadline: an early permit requires a late success. */
  lemma {:induction false} NoEarlyPermit(cfg: Config, s: System, events: seq<Event>, key: Key, deadline: int, clock: int)
    requires ValidConfig(cfg) && Inv(cfg, s.breaker) && Unavailable(s, key, deadline, clock)
    requires NonDecreasing(events, clock) && NoSuccessFor(cfg, s, events, key)
    ensures var t := After(cfg, s, events);
      && key in t.breaker.circuits && t.breaker.circuits[key].state != Closed
      && s.breaker.circuits[key].openedUntil <= t.breaker.circuits[key].openedUntil
    ensures RefusedBefore(cfg, s, events, key, deadline)
    decreases |events|
  {
    if events != [] {
      var e := events[0];
      StepKeeps(cfg, s, e);
      UnavailableStep(cfg, s, e, key, deadline, clock);
      NoEarlyPermit(cfg, Step(cfg, s, e).0, events[1..], key, s.breaker.circuits[key].openedUntil, e.now);
      RefusedEarlier(cfg, Step(cfg, s, e).0, events[1..], key, deadline, s.breaker.circuits[key].openedUntil);
    }
  }

  lemma {:induction false} RefusedEarlier(cfg: Config, s: System, events: seq<Event>, key: Key, deadline: int, later: int)
    requires ValidConfig(cfg) && Inv(cfg, s.breaker) && deadline <= later
    requires RefusedBefore(cfg, s, events, key, later)
    ensures RefusedBefore(cfg, s, events, key, deadline)
    decreases |events|
  {
    if events != [] {
      StepKeeps(cfg, s, events[0]);
      RefusedEarlier(cfg, Step(cfg, s, events[0]).0, events[1..], key, deadline, later);
    }
  }

  // ----- when the documented "exactly one probe" holds -----

  /** Permits for the key that have not completed. */
  function Outstanding(permits: seq<Permit>, key: Key): nat {
    if permits == [] then 0
    else (if permits[0].key == key && !permits[0].done then 1 else 0) + Outstanding(permits[1..], key)
  }

  lemma {:induction false} OutstandingIssue(permits: seq<Permit>, p: Permit, key: Key)
    ensures Outstanding(permits + [p], key) == Outstanding(permits, key) + (if p.key == key && !p.done then 1 else 0)
  {
    if permits == [] {
      assert permits + [p] == [p];
      assert [p][1..] == [];
    } else {
      OutstandingIssue(permits[1..], p, key);
      assert (permits + [p])[1..] == permits[1..] + [p];
    }
  }

  lemma {:induction false} OutstandingSpend(permits: seq<Permit>, i: nat, key: Key)
    requires i < |permits| && !permits[i].done
    ensures Outstanding(permits[i := permits[i].(done := true)], key)
         == Outstanding(permits, key) - (if permits[i].key == key then 1 else 0)
  {
    var spent := permits[i := permits[i].(done := true)];
    if i == 0 {
      assert spent[1..] == permits[1..];
    } else {
      OutstandingSpend(permits[1..], i - 1, key);
      assert spent[1..] == permits[1..][i - 1 := permits[i].(done := true)];
    }
  }

  /** No permit is out while open, and only the probe while half-open. */
  predicate NoLatecomers(s: System, key: Key) {
    && key in s.breaker.circuits
    && match s.breaker.circuits[key].state
       case Open => Outstanding(s.permits, key) == 0
       case HalfOpen => Outstanding(s.permits, key) == 1
       case Closed => false
  }

  lemma NoLatecomersStep(cfg: Config, s: System, e: Event, key: Key)
    requires ValidConfig(cfg) && Inv(cfg, s.breaker) && NoLatecomers(s, key) && !SucceedsFor(s, e, key)
    requires HalfOpenByProbe(s, key)
    ensures NoLatecomers(Step(cfg, s, e).0, key) && HalfOpenByProbe(Step(cfg, s, e).0, key)
  {
    StepEffect(cfg, s, e);
    var t := Step(cfg, s, e).0;
    if s.breaker.circuits[key].state == Open {
      NoneOutstanding(s.permits, key);
    }
    if e.action.AcquireFor? {
      AcquireEffect(cfg, s.breaker, e.action.key, e.now);
      if |t.permits| > |s.permits| {
        OutstandingIssue(s.permits, t.permits[|s.permits|], key);
      }
    } else if Effective(s.permits, e.action) {
      var p := s.permits[e.action.permit];
      RecordFailureEffect(cfg, s.breaker, p.key, e.now);
      AbandonEffect(s.breaker, p.key, p.probe, e.now);
      OutstandingSpend(s.permits, e.action.permit, key);
      if p.key == key {
        SomeOutstanding(s.permits, e.action.permit, key);
      }
    }
  }

  /** While half-open, an outstanding permit of the key is a probe. */
  predicate HalfOpenByProbe(s: System, key: Key) {
    InState(s, key, HalfOpen) ==>
      forall i :: 0 <= i < |s.permits| && s.permits[i].key == key && !s.permits[i].done ==> s.permits[i].probe
  }

  lemma {:induction false} SomeOutstanding(permits: seq<Permit>, i: nat, key: Key)
    requires i < |permits| && permits[i].key == key && !permits[i].done
    ensures Outstanding(permits, key) >= 1
  {
    if i > 0 {
      SomeOutstanding(permits[1..], i - 1, key);
    }
  }

  lemma {:induction false} NoneOutstanding(permits: seq<Permit>, key: Key)
    requires Outstanding(permits, key) == 0
    ensures forall i :: 0 <= i < |permits| && permits[i].key == key ==> permits[i].done
  {
    if permits != [] {
      NoneOutstanding(permits[1..], key);
      assert forall i :: 1 <= i < |permits| ==> permits[i] == permits[1..][i - 1];
    }
  }

  /** If a circuit is open and none of its permits is still out, then until a
      probe succeeds there is never more than one permit out, and it is out
      exactly while the circuit is half-open. */
  lemma {:induction false} OneProbeAtATime(cfg: Config, s: System, events: seq<Event>, key: Key)
    requires ValidConfig(cfg) && Inv(cfg, s.breaker) && NoLatecomers(s, key) && HalfOpenByProbe(s, key)
    requires NoSuccessFor(cfg, s, events, key)
    ensures NoLatecomers(After(cfg, s, events), key)
    decreases |events|
  {
    if events != [] {
      StepKeeps(cfg, s, events[0]);
      NoLatecomersStep(cfg, s, events[0], key);
      OneProbeAtATime(cfg, Step(cfg, s, events[0]).0, events[1..], key);
    }
  }

  /** Probes for the key that have not completed. */
  function ProbesOut(permits: seq<Permit>, key: Key): nat {
    if permits == [] then 0
    else (if permits[0].key == key && permits[0].probe && !permits[0].done then 1 else 0) + ProbesOut(permits[1..], key)
  }

  lemma {:induction false} ProbesIssue(permits: seq<Permit>, p: Permit, key: Key)
    ensures ProbesOut(permits + [p], key) == ProbesOut(permits, key) + (if p.key == key && p.probe && !p.done then 1 else 0)
  {
    if permits == [] {
      assert permits + [p] == [p];
      assert [p][1..] == [];
    } else {
      ProbesIssue(permits[1..], p, key);
      assert (permits + [p])[1..] == permits[1..] + [p];
    }
  }

  lemma {:induction false} ProbesSpend(permits: seq<Permit>, i: nat, key: Key)
    requires i < |permits| && !permits[i].probe
    ensures ProbesOut(permits[i := permits[i].(done := true)], key) == ProbesOut(permits, key)
  {
    var spent := permits[i := permits[i].(done := true)];
    if i == 0 {
      assert spent[1..] == permits[1..];
    } else {
      ProbesSpend(permits[1..], i - 1, key);
      assert spent[1..] == permits[1..][i - 1 := permits[i].(done := true)];
    }
  }

  lemma {:induction false} ProbesAreOutstanding(permits: seq<Permit>, key: Key)
    ensures ProbesOut(permits, key) <= Outstanding(permits, key)
  {
    if permits != [] {
      ProbesAreOutstanding(permits[1..], key);
    }
  }

  lemma {:induction false} AProbeOut(permits: seq<Permit>, i: nat, key: Key)
    requires i < |permits| && permits[i].key == key && permits[i].probe && !permits[i].done
    ensures ProbesOut(permits, key) >= 1
  {
    if i > 0 {
      AProbeOut(permits[1..], i - 1, key);
    }
  }

  /** In every run on a clock that never goes back, until a permit reports
      success, at most one probe is out. */
  ghost predicate AlwaysOneProbe(cfg: Config, s: System, key: Key, clock: int)
    requires ValidConfig(cfg) && Inv(cfg, s.breaker)
  {
    forall events :: NonDecreasing(events, clock) && NoSuccessFor(cfg, s, events, key) ==>
      ProbesOut(After(cfg, s, events).permits, key) <= 1
  }

  /** One more event in front of a run. */
  lemma RunCons(cfg: Config, s: System, e: Event, events: seq<Event>, key: Key, clock: int)
    requires ValidConfig(cfg) && Inv(cfg, s.breaker)
    requires clock <= e.now && NonDecreasing(events, e.now)
    ensures Inv(cfg, Step(cfg, s, e).0.breaker) && NonDecreasing([e] + events, clock)
    ensures After(cfg, s, [e] + events) == After(cfg, Step(cfg, s, e).0, events)
    ensures !SucceedsFor(s, e, key) && NoSuccessFor(cfg, Step(cfg, s, e).0, events, key) ==>
      NoSuccessFor(cfg, s, [e] + events, key)
  {
    hide Step, SucceedsFor;
    StepKeeps(cfg, s, e);
    assert ([e] + events)[1..] == events;
  }

  /** An open circuit whose deadline has come grants a probe. */
  lemma ProbeGranted(cfg: Config, s: System, key: Key, now: int)
    requires ValidConfig(cfg) && Inv(cfg, s.breaker) && InState(s, key, Open)
    requires s.breaker.circuits[key].openedUntil <= now
    ensures var t := Step(cfg, s, Event(now, AcquireFor(key))).0;
      Inv(cfg, t.breaker) && InState(t, key, HalfOpen) && t.permits == s.permits + [Permit(key, true, false)]
  {
    StepKeeps(cfg, s, Event(now, AcquireFor(key)));
    AcquireEffect(cfg, s.breaker, key, now);
  }

  /** A late failure ends the episode and reopens the circuit. */
  lemma LateFailureReopens(cfg: Config, s: System, key: Key, i: nat, now: int)
    requires ValidConfig(cfg) && Inv(cfg, s.breaker) && InState(s, key, HalfOpen)
    requires i < |s.permits| && s.permits[i].key == key && !s.permits[i].done
    ensures var t := Step(cfg, s, Event(now, Fail(i))).0;
      && Inv(cfg, t.breaker) && InState(t, key, Open) && t.breaker.circuits[key].openedUntil == now + cfg.openMs
      && t.permits == s.permits[i := s.permits[i].(done := true)]
  {
    StepKeeps(cfg, s, Event(now, Fail(i)));
    RecordFailureEffect(cfg, s.breaker, key, now);
  }

  /** An old permit still out when the circuit opened brings a second probe: the
      first probe is granted, the old permit fails late and reopens the circuit,
      and the new deadline grants another while the first is still out. If the old
      permit is itself a probe, one more grant is enough. */
  lemma SecondProbe(cfg: Config, s: System, key: Key, i: nat, clock: int) returns (events: seq<Event>)
    requires ValidConfig(cfg) && Inv(cfg, s.breaker) && InState(s, key, Open)
    requires i < |s.permits| && s.permits[i].key == key && !s.permits[i].done
    ensures NonDecreasing(events, clock) && NoSuccessFor(cfg, s, events, key)
    ensures forall e :: e in events ==> !e.action.Succeed?
    ensures ProbesOut(After(cfg, s, events).permits, key) ==
      ProbesOut(s.permits, key) + (if s.permits[i].probe then 1 else 2)
  {
    hide Step;
    var now := Max(clock, s.breaker.circuits[key].openedUntil);
    var grant := Event(now, AcquireFor(key));
    ProbeGranted(cfg, s, key, now);
    var s1 := Step(cfg, s, grant).0;
    ProbesIssue(s.permits, Permit(key, true, false), key);
    if s.permits[i].probe {
      RunCons(cfg, s, grant, [], key, clock);
      events := [grant] + [];
    } else {
      var fail := Event(now, Fail(i));
      LateFailureReopens(cfg, s1, key, i, now);
      var s2 := Step(cfg, s1, fail).0;
      ProbesSpend(s1.permits, i, key);
      var again := Event(now + cfg.openMs, AcquireFor(key));
      ProbeGranted(cfg, s2, key, again.now);
      ProbesIssue(s2.permits, Permit(key, true, false), key);
      RunCons(cfg, s2, again, [], key, now);
      RunCons(cfg, s1, fail, [again] + [], key, now);
      RunCons(cfg, s, grant, [fail] + ([again] + []), key, clock);
      events := [grant] + ([fail] + ([again] + []));
    }
  }

  /** The documented "exactly one request becomes the probe, others wait until it
      succeeds" holds of an open circuit exactly when none of the permits granted
      before it opened is still out. */
  lemma OneProbeIff(cfg: Config, s: System, key: Key, clock: int)
    requires ValidConfig(cfg) && Inv(cfg, s.breaker) && InState(s, key, Open)
    ensures AlwaysOneProbe(cfg, s, key, clock) <==> Outstanding(s.permits, key) == 0
  {
    hide NoSuccessFor;
    if Outstanding(s.permits, key) == 0 {
      forall events | NonDecreasing(events, clock) && NoSuccessFor(cfg, s, events, key)
        ensures ProbesOut(After(cfg, s, events).permits, key) <= 1
      {
        OneProbeAtATime(cfg, s, events, key);
        ProbesAreOutstanding(After(cfg, s, events).permits, key);
      }
    } else {
      var i := SomeoneOut(s.permits, key);
      var events := SecondProbe(cfg, s, key, i, clock);
      if s.permits[i].probe {
        AProbeOut(s.permits, i, key);
      }
    }
  }

  lemma {:induction false} SomeoneOut(permits: seq<Permit>, key: Key) returns (i: nat)
    requires Outstanding(permits, key) > 0
    ensures i < |permits| && permits[i].key == key && !permits[i].done
  {
    i := 0;
    if permits[0].key != key || permits[0].done {
      i := SomeoneOut(permits[1..], key);
      i := i + 1;
    }
  }

  // ----- a second probe in a run from the start -----

  const ONE_ORIGIN := Config(1, 10, 1)

  function Lone(key: Key, c: Circuit, log: seq<Transition>): Breaker {
    Breaker([key], map[key := c], log)
  }

  const CROWDED: System :=
    System(Lone("a", Circuit(Open, 1, 10, 0), [Transition(Closed, Open)]),
           [Permit("a", false, true), Permit("a", false, false)])

  const FRESHLY_CLOSED := Lone("a", Circuit(Closed, 0, 0, 0), [])

  const ONE_OUT := System(FRESHLY_CLOSED, [Permit("a", false, false)])

  const TWO_OUT := System(FRESHLY_CLOSED, [Permit("a", false, false), Permit("a", false, false)])

  const BEGIN := Event(0, AcquireFor("a"))

  const BREAK := Event(0, Fail(0))

  lemma FirstStarts()
    ensures Step(ONE_ORIGIN, START, BEGIN).0 == ONE_OUT
  {
  }

  lemma SecondStarts()
    ensures Consistent(ONE_OUT.breaker)
    ensures Step(ONE_ORIGIN, ONE_OUT, BEGIN).0 == TWO_OUT
  {
  }

  lemma FirstFails()
    ensures Consistent(TWO_OUT.breaker)
    ensures Step(ONE_ORIGIN, TWO_OUT, BREAK).0 == CROWDED
  {
  }

  /** So the documented "exactly one probe" does not hold of every run: two
      requests start while the circuit is closed, the first one fails, and the
      second is a latecomer. No permit ever reports success, and in the end two
      probes are out. */
  lemma SecondProbePossible() returns (run: seq<Event>)
    ensures NonDecreasing(run, 0) && forall e :: e in run ==> !e.action.Succeed?
    ensures ProbesOut(After(ONE_ORIGIN, START, run).permits, "a") == 2
  {
    hide Step;
    FirstStarts();
    SecondStarts();
    FirstFails();
    StepKeeps(ONE_ORIGIN, START, BEGIN);
    StepKeeps(ONE_ORIGIN, ONE_OUT, BEGIN);
    StepKeeps(ONE_ORIGIN, TWO_OUT, BREAK);
    var tail := SecondProbe(ONE_ORIGIN, CROWDED, "a", 1, 0);
    assert CROWDED.permits[1..] == [Permit("a", false, false)];
    RunCons(ONE_ORIGIN, TWO_OUT, BREAK, tail, "a", 0);
    RunCons(ONE_ORIGIN, ONE_OUT, BEGIN, [BREAK] + tail, "a", 0);
    RunCons(ONE_ORIGIN, START, BEGIN, [BEGIN] + ([BREAK] + tail), "a", 0);
    run := [BEGIN] + ([BEGIN] + ([BREAK] + tail));
  }
}
