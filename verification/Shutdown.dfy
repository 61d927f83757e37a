/** Graceful shutdown: drain, server close and a timer race, composed with the
    gateway's requests. */
module Shutdown {
  import opened Text
  import A = Admission

  datatype Problem = ServerError | WaitError | CloseAllFailed | StopFailed

  /** Where `performGracefulShutdown` stands; `Returned` and `Threw` are its two ends. */
  datatype Phase =
    | NotStarted
    | Racing(waiter: nat)
    | Stopping
    | Returned(forced: bool)
    | Threw(problems: seq<Problem>)

  /** The sequence's own variables, what has happened around it, and what a proof
      remembers of the moment the dependencies began stopping. */
  datatype State = State(
    gateway: A.Gateway,
    phase: Phase,
    forced: bool,
    errors: seq<Problem>,
    closing: bool,
    closed: Option<bool>,
    timerFired: bool,
    stops: nat,
    activeAtStop: int,
    closedCleanlyAtStop: bool)

  function New(gateway: A.Gateway): State {
    State(gateway, NotStarted, false, [], false, None, false, 0, 0, false)
  }

  /** Everything that may happen, in any order. `ServerClosed(failed)` is the close
      callback or a throwing `close`; `CompletedFirst` and `TimedOutFirst` settle the
      race and run up to `stopDependencies`, which `DependenciesStopped` ends. */
  datatype Step =
    | Traffic(event: A.Event)
    | Start
    | ServerClosed(failed: bool)
    | TimerFires
    | CompletedFirst
    | TimedOutFirst(closeAllThrows: bool)
    | DependenciesStopped(failed: bool)

  predicate Idle(s: State) {
    s.phase.Racing? && s.phase.waiter < |s.gateway.gate.resolutions| && s.gateway.gate.resolutions[s.phase.waiter] > 0
  }

  predicate Enabled(s: State, step: Step) {
    && A.SameLengths(s.gateway)
    && match step
       case Traffic(e) => A.Possible(s.gateway, e)
       case Start => s.phase.NotStarted?
       case ServerClosed(_) => s.closing && s.closed.None?
       case TimerFires => s.closing && !s.timerFired
       case CompletedFirst => Idle(s) && s.closed.Some?
       case TimedOutFirst(_) => s.phase.Racing? && s.timerFired
       case DependenciesStopped(_) => s.phase.Stopping?
  }

  /** Draining, closing the server and asking for idleness happen in one go. */
  function Started(s: State): State {
    var drained := s.gateway.(gate := A.AfterDrain(s.gateway.gate));
    var (gate, waiter) := A.AfterWait(drained.gate);
    s.(gateway := drained.(gate := gate), phase := Racing(waiter), closing := true)
  }

  /** How the race was settled; `Completed` carries whether the server closed
      with an error, and `Failed` is a wait for idleness that rejected, which the
      gateway's never does. */
  datatype RaceResult = Completed(serverError: bool) | Failed | TimedOut

  function ProblemsOf(result: RaceResult, closeAllThrows: bool): seq<Problem> {
    match result
    case TimedOut => if closeAllThrows then [CloseAllFailed] else []
    case Failed => [WaitError]
    case Completed(serverError) => if serverError then [ServerError] else []
  }

  /** Any problem is thrown; otherwise the shutdown reports whether it was forced. */
  function Ended(forced: bool, errors: seq<Problem>): Phase {
    if errors == [] then Returned(forced) else Threw(errors)
  }

  /** The dependencies begin stopping. */
  function BeginStop(s: State, result: RaceResult, closeAllThrows: bool): State {
    s.(phase := Stopping, forced := result == TimedOut, errors := ProblemsOf(result, closeAllThrows), stops := s.stops + 1,
       activeAtStop := s.gateway.gate.active, closedCleanlyAtStop := s.closed == Some(false))
  }

  function Next(s: State, step: Step): State
    requires Enabled(s, step)
  {
    match step
    case Traffic(e) => s.(gateway := A.After(s.gateway, e))
    case Start => Started(s)
    case ServerClosed(failed) => s.(closed := Some(failed))
    case TimerFires => s.(timerFired := true)
    case CompletedFirst => BeginStop(s, Completed(s.closed.value), false)
    case TimedOutFirst(closeAllThrows) => BeginStop(s, TimedOut, closeAllThrows)
    case DependenciesStopped(failed) =>
      var errors := if failed then s.errors + [StopFailed] else s.errors;
      s.(errors := errors, phase := Ended(s.forced, errors))
  }

  ghost predicate Reaches(s: State, steps: seq<Step>, t: State)
    decreases |steps|
  {
    if steps == [] then s == t
    else Enabled(s, steps[0]) && Reaches(Next(s, steps[0]), steps[1..], t)
  }

  predicate Stopped(s: State) {
    s.phase.Stopping? || s.phase.Returned? || s.phase.Threw?
  }

  ghost predicate Inv(s: State) {
    && A.Inv(s.gateway)
    && (!s.phase.NotStarted? ==> !s.gateway.gate.accepting && s.closing)
    && (s.phase.NotStarted? ==> !s.closing)
    && (Idle(s) ==> s.gateway.gate.active == 0)
    && (s.phase.Racing? ==> s.phase.waiter < |s.gateway.gate.resolutions|)
    && s.stops == (if Stopped(s) then 1 else 0)
    && (Stopped(s) && s.forced ==> s.timerFired)
    && (Stopped(s) && !s.forced ==> s.activeAtStop == 0 && s.gateway.gate.active == 0)
    && (Stopped(s) && !s.forced && s.errors == [] ==> s.closedCleanlyAtStop)
    && (s.phase.Returned? ==> s.phase.forced == s.forced && s.errors == [])
    && (s.phase.Threw? ==> s.phase.problems == s.errors != [])
  }

  lemma TrafficKeeps(s: State, e: A.Event)
    requires Inv(s) && Enabled(s, Traffic(e))
    ensures Inv(Next(s, Traffic(e)))
  {
    hide A.After, A.GateInv;
    A.EventKeeps(s.gateway, e);
    var t := A.After(s.gateway, e);
    if !s.gateway.gate.accepting {
      A.EventWhileDraining(s.gateway, e);
      A.ActiveIsCount(t);
    }
    if s.phase.Racing? {
      WaitersKept(s.gateway, e);
      A.ResolvedAtZero(s.gateway, e, s.phase.waiter);
    }
  }

  lemma WaitersKept(w: A.Gateway, e: A.Event)
    requires A.Inv(w) && A.Possible(w, e)
    ensures |A.After(w, e).gate.resolutions| >= |w.gate.resolutions|
  {
  }

  lemma StartKeeps(s: State)
    requires Inv(s) && s.phase.NotStarted?
    ensures Inv(Next(s, Start))
  {
    A.WaitKeeps(A.AfterDrain(s.gateway.gate));
  }

  lemma StepKeeps(s: State, step: Step)
    requires Inv(s) && Enabled(s, step)
    ensures Inv(Next(s, step))
  {
    match step
    case Traffic(e) => TrafficKeeps(s, e);
    case Start => StartKeeps(s);
    case ServerClosed(_) =>
    case TimerFires =>
    case CompletedFirst => assert s.closed.value ==> |Next(s, step).errors| == 1;
    case TimedOutFirst(_) =>
    case DependenciesStopped(_) => assert s.errors != [] ==> |Next(s, step).errors| >= 1;
  }

  lemma {:induction false} RunKeeps(s: State, steps: seq<Step>, t: State)
    requires Inv(s) && Reaches(s, steps, t)
    ensures Inv(t)
    decreases |steps|
  {
    hide Inv, Next;
    if steps != [] {
      StepKeeps(s, steps[0]);
      RunKeeps(Next(s, steps[0]), steps[1..], t);
    }
  }

  predicate BeginsStop(step: Step) {
    step.CompletedFirst? || step.TimedOutFirst?
  }

  function StopCalls(steps: seq<Step>): nat {
    if steps == [] then 0 else (if BeginsStop(steps[0]) then 1 else 0) + StopCalls(steps[1..])
  }

  lemma {:induction false} StopsCounted(s: State, steps: seq<Step>, t: State)
    requires Reaches(s, steps, t)
    ensures t.stops == s.stops + StopCalls(steps)
    decreases |steps|
  {
    if steps != [] {
      StopsCounted(Next(s, steps[0]), steps[1..], t);
    }
  }

  /** In every interleaving of traffic, server close and timer, dependencies are
      stopped at most once, and exactly once by the time the shutdown ends. */
  lemma DependenciesStopOnce(gateway: A.Gateway, steps: seq<Step>, s: State)
    requires A.Inv(gateway) && Reaches(New(gateway), steps, s)
    ensures StopCalls(steps) <= 1
    ensures s.phase.Returned? || s.phase.Threw? ==> StopCalls(steps) == 1
  {
    RunKeeps(New(gateway), steps, s);
    StopsCounted(New(gateway), steps, s);
  }

  /** The problems met so far, read off the run. */
  ghost predicate ProblemsSeen(s: State, steps: seq<Step>) {
    && (CloseAllFailed in s.errors <==> TimedOutFirst(true) in steps)
    && (ServerError in s.errors <==> CompletedFirst in steps && s.closed == Some(true))
    && (StopFailed in s.errors <==> DependenciesStopped(true) in steps)
    && WaitError !in s.errors
    && (s.closed.Some? <==> ServerClosed(true) in steps || ServerClosed(false) in steps)
    && (s.closed == Some(true) <==> ServerClosed(true) in steps)
    && (!Stopped(s) ==> s.errors == [] && CompletedFirst !in steps && TimedOutFirst(true) !in steps)
    && (s.phase.Stopping? || !Stopped(s) ==> DependenciesStopped(true) !in steps)
    && (CompletedFirst in steps ==> s.closed.Some?)
    && (s.timerFired <==> TimerFires in steps)
    && (!Stopped(s) ==> TimedOutFirst(false) !in steps)
    && (Stopped(s) ==> (s.forced <==> TimedOutFirst(false) in steps || TimedOutFirst(true) in steps))
    && (Stopped(s) && !s.forced ==> CompletedFirst in steps)
  }

  lemma ProblemsStep(s: State, before: seq<Step>, step: Step)
    requires Inv(s) && ProblemsSeen(s, before) && Enabled(s, step)
    ensures ProblemsSeen(Next(s, step), before + [step])
  {
    hide A.After, A.GateInv, Started;
    assert forall x :: x in before + [step] <==> x in before || x == step;
    if step == Start {
      StartedSets(s);
    }
  }

  lemma StartedSets(s: State)
    requires s.phase.NotStarted?
    ensures var t := Started(s);
      t.errors == s.errors && t.closed == s.closed && t.timerFired == s.timerFired && t.phase.Racing?
  {
  }

  lemma {:induction false} ProblemsRun(s: State, before: seq<Step>, steps: seq<Step>, t: State)
    requires Inv(s) && ProblemsSeen(s, before) && Reaches(s, steps, t)
    ensures ProblemsSeen(t, before + steps)
    decreases |steps|
  {
    hide Next, Inv, ProblemsSeen;
    if steps == [] {
      assert before + steps == before;
    } else {
      ProblemsStep(s, before, steps[0]);
      StepKeeps(s, steps[0]);
      ProblemsRun(Next(s, steps[0]), before + [steps[0]], steps[1..], t);
      assert before + steps == before + [steps[0]] + steps[1..];
    }
  }

  /** A shutdown that reports it was not forced stopped its dependencies when no
      admitted request was active and the server had closed without error, and
      no request has become active since; one that reports it was forced ran out
      of time; and one that met any problem throws it instead of returning. */
  lemma UnforcedIsClean(gateway: A.Gateway, steps: seq<Step>, s: State)
    requires A.Inv(gateway) && Reaches(New(gateway), steps, s)
    ensures s.phase == Returned(false) ==> s.activeAtStop == 0 && s.closedCleanlyAtStop && s.gateway.gate.active == 0
    ensures s.phase == Returned(false) ==> CompletedFirst in steps && ServerClosed(false) in steps
    ensures s.phase == Returned(true) ==> TimerFires in steps && TimedOutFirst(false) in steps
    ensures s.phase.Threw? ==> s.phase.problems != []
    ensures !s.phase.NotStarted? ==> !s.gateway.gate.accepting
  {
    hide A.GateInv, A.After;
    NewInv(gateway);
    RunKeeps(New(gateway), steps, s);
    ProblemsRun(New(gateway), [], steps, s);
    assert [] + steps == steps;
  }

  /** No problem is lost and none is invented: an ended shutdown has thrown exactly
      if closing all connections threw, dependencies failed to stop, or both request
      traffic and the server came to an end and the server had closed with an error;
      and each of these is among the problems thrown exactly when it happened. */
  lemma ProblemsAreThrown(gateway: A.Gateway, steps: seq<Step>, s: State)
    requires A.Inv(gateway) && Reaches(New(gateway), steps, s) && Over(s)
    ensures var closeAll, stop := TimedOutFirst(true) in steps, DependenciesStopped(true) in steps;
      var server := CompletedFirst in steps && ServerClosed(true) in steps;
      && (s.phase.Threw? <==> closeAll || stop || server)
      && (s.phase.Threw? ==>
            && (CloseAllFailed in s.phase.problems <==> closeAll)
            && (StopFailed in s.phase.problems <==> stop)
            && (ServerError in s.phase.problems <==> server))
  {
    hide A.GateInv, A.After;
    NewInv(gateway);
    RunKeeps(New(gateway), steps, s);
    ProblemsRun(New(gateway), [], steps, s);
    assert [] + steps == steps;
    if s.errors != [] {
      assert s.errors[0] in s.errors;
      match s.errors[0]
      case CloseAllFailed =>
      case ServerError =>
      case StopFailed =>
      case WaitError =>
    }
    assert Over(s) ==> (s.phase.Threw? <==> s.errors != []);
  }

  predicate Over(s: State) {
    s.phase.Returned? || s.phase.Threw?
  }

  lemma ReachesOne(s: State, step: Step, steps: seq<Step>, t: State)
    requires Enabled(s, step) && Reaches(Next(s, step), steps, t)
    ensures Reaches(s, [step] + steps, t)
  {
    assert ([step] + steps)[1..] == steps;
  }

  /** The shutdown depends neither on requests nor on the server: from any state
      in which it is racing, at most three steps, of the timer and of stopping the
      dependencies alone, bring it to an end. */
  lemma AlwaysEnds(gateway: A.Gateway, steps: seq<Step>, s: State) returns (more: seq<Step>, t: State)
    requires A.Inv(gateway) && Reaches(New(gateway), steps, s) && s.phase.Racing?
    ensures Reaches(s, more, t) && Over(t) && |more| <= 3
    ensures forall step :: step in more ==> step.TimerFires? || step.TimedOutFirst? || step.DependenciesStopped?
  {
    hide Inv, A.Inv;
    NewInv(gateway);
    RunKeeps(New(gateway), steps, s);
    RacingMeans(s);
    var late := if s.timerFired then s else Next(s, TimerFires);
    var stopping := Next(late, TimedOutFirst(false));
    t := Next(stopping, DependenciesStopped(false));
    ReachesOne(stopping, DependenciesStopped(false), [], t);
    ReachesOne(late, TimedOutFirst(false), [DependenciesStopped(false)] + [], t);
    more := [TimedOutFirst(false)] + ([DependenciesStopped(false)] + []);
    if !s.timerFired {
      ReachesOne(s, TimerFires, more, t);
      more := [TimerFires] + more;
    }
  }

  /** With no request active and the server closed without error, two steps that
      need no timer bring it to an end that is not forced. */
  lemma EndsCalmly(gateway: A.Gateway, steps: seq<Step>, s: State)
    requires A.Inv(gateway) && Reaches(New(gateway), steps, s) && s.phase.Racing?
    requires s.gateway.gate.active == 0 && s.closed == Some(false)
    ensures Enabled(s, CompletedFirst)
    ensures var u := Next(Next(s, CompletedFirst), DependenciesStopped(false));
      Reaches(s, [CompletedFirst] + ([DependenciesStopped(false)] + []), u) && u.phase == Returned(false)
  {
    hide Inv;
    NewInv(gateway);
    RunKeeps(New(gateway), steps, s);
    RacingMeans(s);
    IdleGateResolved(s.gateway.gate, s.phase.waiter);
    var settled := Next(s, CompletedFirst);
    var u := Next(settled, DependenciesStopped(false));
    ReachesOne(settled, DependenciesStopped(false), [], u);
    ReachesOne(s, CompletedFirst, [DependenciesStopped(false)] + [], u);
  }

  lemma NewInv(gateway: A.Gateway)
    requires A.Inv(gateway)
    ensures Inv(New(gateway))
  {
  }

  lemma RacingMeans(s: State)
    requires Inv(s) && s.phase.Racing?
    ensures s.closing && A.Inv(s.gateway) && s.phase.waiter < |s.gateway.gate.resolutions|
  {
  }

  lemma IdleGateResolved(g: A.Gate, waiter: nat)
    requires A.GateInv(g) && g.active == 0 && waiter < |g.resolutions|
    ensures g.resolutions[waiter] == 1
  {
    assert A.Occurrences(g.idleWaiters, waiter) == 0;
  }

  // ----- the sequence itself -----

  /** `performGracefulShutdown`, cut at its awaits; each piece is one of the
      machine's steps. */
  class GracefulShutdown {
    const tracker: A.RequestTracker
    var phase: Phase
    var forced: bool
    var errors: seq<Problem>
    var closed: Option<bool>
    var timerFired: bool
    ghost var closing: bool
    ghost var stops: nat
    ghost var activeAtStop: int
    ghost var closedCleanlyAtStop: bool

    ghost function View(): State
      reads this, tracker, tracker.gate
    {
      State(tracker.View(), phase, forced, errors, closing, closed, timerFired, stops, activeAtStop, closedCleanlyAtStop)
    }

    constructor (tracker: A.RequestTracker)
      ensures this.tracker == tracker && View() == New(tracker.View())
    {
      this.tracker := tracker;
      phase, forced, errors, closed, timerFired := NotStarted, false, [], None, false;
      closing, stops, activeAtStop, closedCleanlyAtStop := false, 0, 0, false;
    }

    /** Up to the race: drain, close the server, ask for idleness, set the timer. */
    method Begin()
      requires Inv(View()) && phase.NotStarted?
      modifies this, tracker.gate
      ensures View() == Next(old(View()), Start) && Inv(View())
    {
      StepKeeps(View(), Start);
      var started := tracker.gate.BeginDrain();
      var waiter := tracker.gate.WaitForIdle();
      phase, closing := Racing(waiter), true;
    }

    /** The close callback, or a `close` that throws. */
    method Closed(failed: bool)
      requires Inv(View()) && Enabled(View(), ServerClosed(failed))
      modifies `closed
      ensures View() == Next(old(View()), ServerClosed(failed)) && Inv(View())
    {
      StepKeeps(View(), ServerClosed(failed));
      closed := Some(failed);
    }

    method TimeOut()
      requires Inv(View()) && Enabled(View(), TimerFires)
      modifies `timerFired
      ensures View() == Next(old(View()), TimerFires) && Inv(View())
    {
      StepKeeps(View(), TimerFires);
      timerFired := true;
    }

    /** From the race's result to the call of `stopDependencies`. */
    method RaceSettled(result: RaceResult, closeAllThrows: bool)
      requires phase.Racing? && errors == [] && !forced
      modifies this
      ensures View() == BeginStop(old(View()), result, closeAllThrows)
      ensures result.Failed? ==> errors == [WaitError]
    {
      if result == TimedOut {
        forced := true;
        if closeAllThrows {
          errors := errors + [CloseAllFailed];
        }
      } else if result == Failed {
        errors := errors + [WaitError];
      } else if result.serverError {
        errors := errors + [ServerError];
      }
      phase := Stopping;
      stops := stops + 1;
      activeAtStop, closedCleanlyAtStop := tracker.gate.active, closed == Some(false);
    }

    /** After `stopDependencies` has settled. */
    method DependenciesSettled(failed: bool)
      requires Inv(View()) && phase.Stopping?
      modifies this
      ensures View() == Next(old(View()), DependenciesStopped(failed)) && Inv(View())
    {
      StepKeeps(View(), DependenciesStopped(failed));
      if failed {
        errors := errors + [StopFailed];
      }
      if |errors| > 0 {
        phase := Threw(errors);
      } else {
        phase := Returned(forced);
      }
    }
  }
}
