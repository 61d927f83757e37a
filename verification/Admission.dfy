/** The gateway's admission gate and the release of each admitted request: what
    is counted as active is exactly what has not been answered and consumed. */
module Admission {
  import opened Text

  // ----- the gate -----

  /** One flag for each admission's release closure, and for each idle waiter how
      often it was resolved; `idleWaiters` holds those not resolved yet. */
  datatype Gate = Gate(
    maximum: nat,
    active: int,
    accepting: bool,
    released: seq<bool>,
    idleWaiters: seq<nat>,
    resolutions: seq<nat>)

  datatype Admitted = Accepted(id: nat) | Overloaded | Draining

  function NewGate(maximum: nat): Gate {
    Gate(maximum, 0, true, [], [], [])
  }

  function AfterAcquire(g: Gate): (Gate, Admitted) {
    if !g.accepting then (g, Draining)
    else if g.active >= g.maximum then (g, Overloaded)
    else (g.(active := g.active + 1, released := g.released + [false]), Accepted(|g.released|))
  }

  function ResolveAll(waiters: seq<nat>, resolutions: seq<nat>): seq<nat> {
    seq(|resolutions|, i requires 0 <= i < |resolutions| => resolutions[i] + Occurrences(waiters, i))
  }

  function Occurrences(waiters: seq<nat>, id: nat): nat {
    if waiters == [] then 0 else (if waiters[0] == id then 1 else 0) + Occurrences(waiters[1..], id)
  }

  /** A release closure's call: only the first does anything, and the one that
      empties the gate resolves everyone waiting. */
  function AfterRelease(g: Gate, id: nat): Gate
    requires id < |g.released|
  {
    if g.released[id] then g
    else
      var g' := g.(released := g.released[id := true], active := g.active - 1);
      if g'.active == 0 then g'.(idleWaiters := [], resolutions := ResolveAll(g.idleWaiters, g.resolutions)) else g'
  }

  function AfterDrain(g: Gate): Gate {
    g.(accepting := false)
  }

  /** A waiter for an idle gate: resolved at once if the gate is idle already. */
  function AfterWait(g: Gate): (Gate, nat) {
    var id := |g.resolutions|;
    if g.active == 0 then (g.(resolutions := g.resolutions + [1]), id)
    else (g.(resolutions := g.resolutions + [0], idleWaiters := g.idleWaiters + [id]), id)
  }

  function Unreleased(released: seq<bool>): nat {
    if released == [] then 0 else (if released[0] then 0 else 1) + Unreleased(released[1..])
  }

  ghost predicate GateInv(g: Gate) {
    && 0 < g.maximum && g.active == Unreleased(g.released) <= g.maximum
    && (g.idleWaiters != [] ==> g.active > 0)
    && (forall i :: 0 <= i < |g.idleWaiters| ==> g.idleWaiters[i] < |g.resolutions|)
    && (forall id :: 0 <= id < |g.resolutions| ==> g.resolutions[id] + Occurrences(g.idleWaiters, id) == 1)
  }

  lemma {:induction false} UnreleasedAppend(released: seq<bool>)
    ensures Unreleased(released + [false]) == Unreleased(released) + 1
  {
    if released == [] {
      assert released + [false] == [false];
    } else {
      UnreleasedAppend(released[1..]);
      assert (released + [false])[1..] == released[1..] + [false];
    }
  }

  lemma {:induction false} UnreleasedFlip(released: seq<bool>, id: nat)
    requires id < |released| && !released[id]
    ensures Unreleased(released[id := true]) == Unreleased(released) - 1
  {
    var after := released[id := true];
    if id == 0 {
      assert after[1..] == released[1..];
    } else {
      UnreleasedFlip(released[1..], id - 1);
      assert after[1..] == released[1..][id - 1 := true];
    }
  }

  lemma {:induction false} OccurrencesAppend(waiters: seq<nat>, added: nat, id: nat)
    ensures Occurrences(waiters + [added], id) == Occurrences(waiters, id) + if added == id then 1 else 0
  {
    if waiters == [] {
      assert waiters + [added] == [added];
    } else {
      OccurrencesAppend(waiters[1..], added, id);
      assert (waiters + [added])[1..] == waiters[1..] + [added];
    }
  }

  lemma {:induction false} NoOccurrence(waiters: seq<nat>, id: nat)
    requires id !in waiters
    ensures Occurrences(waiters, id) == 0
  {
    if waiters != [] {
      assert waiters[0] in waiters;
      NoOccurrence(waiters[1..], id);
    }
  }

  lemma TryAcquireKeeps(g: Gate)
    requires GateInv(g)
    ensures GateInv(AfterAcquire(g).0)
  {
    UnreleasedAppend(g.released);
  }

  lemma ReleaseKeeps(g: Gate, id: nat)
    requires GateInv(g) && id < |g.released|
    ensures GateInv(AfterRelease(g, id))
  {
    if !g.released[id] {
      UnreleasedFlip(g.released, id);
    }
  }

  lemma WaitKeeps(g: Gate)
    requires GateInv(g)
    ensures GateInv(AfterWait(g).0)
  {
    var n := |g.resolutions|;
    var g' := AfterWait(g).0;
    NoOccurrence(g.idleWaiters, n);
    forall id | 0 <= id <= n ensures g'.resolutions[id] + Occurrences(g'.idleWaiters, id) == 1 {
      OccurrencesAppend(g.idleWaiters, n, id);
    }
  }

  lemma {:induction false} OneMoreResolved(waiters: seq<nat>, resolutions: seq<nat>, i: nat)
    requires i < |waiters| && waiters[i] < |resolutions|
    ensures var before := ResolveAll(waiters[..i], resolutions);
      ResolveAll(waiters[..i + 1], resolutions) == before[waiters[i] := before[waiters[i]] + 1]
  {
    assert waiters[..i + 1] == waiters[..i] + [waiters[i]];
    forall id | 0 <= id < |resolutions|
      ensures Occurrences(waiters[..i + 1], id) == Occurrences(waiters[..i], id) + if waiters[i] == id then 1 else 0
    {
      OccurrencesAppend(waiters[..i], waiters[i], id);
    }
  }

  class AdmissionGate {
    const maximum: nat
    var active: int
    var accepting: bool
    var released: seq<bool>
    var idleWaiters: seq<nat>
    var resolutions: seq<nat>

    function State(): Gate
      reads this
    {
      Gate(maximum, active, accepting, released, idleWaiters, resolutions)
    }

    constructor (maximum: nat)
      requires maximum > 0
      ensures State() == NewGate(maximum) && GateInv(State())
      ensures accepting && active == 0 && this.maximum == maximum
    {
      this.maximum := maximum;
      active, accepting := 0, true;
      released, idleWaiters, resolutions := [], [], [];
    }

    method TryAcquire() returns (admitted: Admitted)
      requires GateInv(State())
      modifies this
      ensures (State(), admitted) == AfterAcquire(old(State())) && GateInv(State())
      ensures admitted.Accepted? <==> old(accepting && active < maximum)
      ensures admitted == Draining <==> !old(accepting)
      ensures admitted == Overloaded <==> old(accepting) && old(active) >= maximum
    {
      TryAcquireKeeps(State());
      if !accepting {
        return Draining;
      }
      if active >= maximum {
        return Overloaded;
      }
      active := active + 1;
      admitted := Accepted(|released|);
      released := released + [false];
    }

    /** A release closure: resolving is a loop over the waiters taken off the list. */
    method Release(id: nat)
      requires GateInv(State()) && id < |released|
      modifies this
      ensures State() == AfterRelease(old(State()), id) && GateInv(State())
      ensures old(released)[id] ==> State() == old(State())
    {
      ReleaseKeeps(State(), id);
      if released[id] {
        return;
      }
      released := released[id := true];
      active := active - 1;
      if active == 0 {
        var taken := idleWaiters;
        idleWaiters := [];
        for i := 0 to |taken|
          invariant resolutions == ResolveAll(taken[..i], old(resolutions))
          invariant idleWaiters == [] && active == 0 && accepting == old(accepting) && released == old(released)[id := true]
        {
          OneMoreResolved(taken, old(resolutions), i);
          resolutions := resolutions[taken[i] := resolutions[taken[i]] + 1];
        }
        assert taken[..|taken|] == taken;
      }
    }

    method BeginDrain() returns (started: bool)
      requires GateInv(State())
      modifies this
      ensures State() == AfterDrain(old(State())) && GateInv(State()) && started == old(accepting)
    {
      if !accepting {
        return false;
      }
      accepting := false;
      return true;
    }

    method WaitForIdle() returns (waiter: nat)
      requires GateInv(State())
      modifies this
      ensures (State(), waiter) == AfterWait(old(State())) && GateInv(State())
    {
      WaitKeeps(State());
      waiter := |resolutions|;
      if active == 0 {
        resolutions := resolutions + [1];
      } else {
        resolutions := resolutions + [0];
        idleWaiters := idleWaiters + [waiter];
      }
    }
  }

  // ----- requests -----

  /** A request is being handled, its response body is being read, or it is over. */
  datatype Life = Handling | Streaming | Over

  /** The gateway: the gate, the second flag each request's own closure keeps, the
      active-requests gauge, and each admitted request's life. */
  datatype Gateway = Gateway(gate: Gate, requestReleased: seq<bool>, gauge: int, clamped: bool, lives: seq<Life>)

  /** What can happen to the gateway and to the requests it admitted. A body may
      be pulled and cancelled in any order, also after it ended. */
  datatype Event =
    | Arrive
    | HandlerThrows(id: nat)
    | HandlerReturns(id: nat, hasBody: bool)
    | PullChunk(id: nat)
    | PullDone(id: nat)
    | PullFails(id: nat)
    | CancelBody(id: nat)
    | Drain
    | Wait

  function NewGateway(maximum: nat): Gateway {
    Gateway(NewGate(maximum), [], 0, false, [])
  }

  predicate Possible(w: Gateway, e: Event) {
    match e
    case Arrive => true
    case HandlerThrows(id) => id < |w.lives| && w.lives[id].Handling?
    case HandlerReturns(id, _) => id < |w.lives| && w.lives[id].Handling?
    case PullChunk(id) => id < |w.lives| && w.lives[id].Streaming?
    case PullDone(id) => id < |w.lives| && !w.lives[id].Handling?
    case PullFails(id) => id < |w.lives| && !w.lives[id].Handling?
    case CancelBody(id) => id < |w.lives| && !w.lives[id].Handling?
    case Drain => true
    case Wait => true
  }

  /** `releaseRequest`: the gate first, then the gauge, which is clamped at zero. */
  function AfterReleaseRequest(w: Gateway, id: nat): Gateway
    requires id < |w.requestReleased| && id < |w.gate.released|
  {
    if w.requestReleased[id] then w
    else
      w.(requestReleased := w.requestReleased[id := true],
         gate := AfterRelease(w.gate, id),
         gauge := if w.gauge >= 1 then w.gauge - 1 else 0,
         clamped := w.clamped || w.gauge < 1)
  }

  function EndRequest(w: Gateway, id: nat): Gateway
    requires id < |w.lives| == |w.requestReleased| == |w.gate.released|
  {
    AfterReleaseRequest(w.(lives := w.lives[id := Over]), id)
  }

  predicate SameLengths(w: Gateway) {
    |w.lives| == |w.requestReleased| == |w.gate.released|
  }

  function After(w: Gateway, e: Event): Gateway
    requires SameLengths(w) && Possible(w, e)
  {
    match e
    case Arrive =>
      var (gate, admitted) := AfterAcquire(w.gate);
      if admitted.Accepted? then
        w.(gate := gate, requestReleased := w.requestReleased + [false], gauge := w.gauge + 1, lives := w.lives + [Handling])
      else w
    case HandlerThrows(id) => EndRequest(w, id)
    case HandlerReturns(id, hasBody) => if hasBody then w.(lives := w.lives[id := Streaming]) else EndRequest(w, id)
    case PullChunk(id) => w
    case PullDone(id) => EndRequest(w, id)
    case PullFails(id) => EndRequest(w, id)
    case CancelBody(id) => EndRequest(w, id)
    case Drain => w.(gate := AfterDrain(w.gate))
    case Wait => w.(gate := AfterWait(w.gate).0)
  }

  /** The requests not yet over. */
  function Unfinished(lives: seq<Life>): nat {
    if lives == [] then 0 else (if lives[0].Over? then 0 else 1) + Unfinished(lives[1..])
  }

  /** Both flags of a request say the same: it is over. */
  ghost predicate Inv(w: Gateway) {
    && GateInv(w.gate) && SameLengths(w)
    && (forall id :: 0 <= id < |w.lives| ==> (w.gate.released[id] <==> w.lives[id].Over?))
    && (forall id :: 0 <= id < |w.lives| ==> (w.requestReleased[id] <==> w.lives[id].Over?))
    && w.gauge == w.gate.active && !w.clamped
  }

  lemma {:induction false} UnfinishedIsUnreleased(lives: seq<Life>, released: seq<bool>)
    requires |lives| == |released|
    requires forall id :: 0 <= id < |lives| ==> (released[id] <==> lives[id].Over?)
    ensures Unfinished(lives) == Unreleased(released)
  {
    if lives != [] {
      UnfinishedIsUnreleased(lives[1..], released[1..]);
    }
  }

  lemma {:induction false} OneUnreleased(released: seq<bool>, id: nat)
    requires id < |released| && !released[id]
    ensures Unreleased(released) > 0
  {
    if id > 0 {
      OneUnreleased(released[1..], id - 1);
    }
  }

  lemma EndRequestKeeps(w: Gateway, id: nat)
    requires Inv(w) && id < |w.lives|
    ensures Inv(EndRequest(w, id))
  {
    hide GateInv, AfterRelease;
    ReleaseKeeps(w.gate, id);
    ReleaseOnce(w.gate, id);
  }

  lemma ReleaseOnce(g: Gate, id: nat)
    requires GateInv(g) && id < |g.released|
    ensures AfterRelease(g, id).released == g.released[id := true]
    ensures AfterRelease(g, id).active == if g.released[id] then g.active else g.active - 1
    ensures !g.released[id] ==> g.active >= 1
  {
    if !g.released[id] {
      OneUnreleased(g.released, id);
    }
  }

  lemma EventKeeps(w: Gateway, e: Event)
    requires Inv(w) && Possible(w, e)
    ensures Inv(After(w, e))
  {
    hide EndRequest, AfterReleaseRequest;
    match e
    case Arrive => TryAcquireKeeps(w.gate);
    case HandlerThrows(id) => EndRequestKeeps(w, id);
    case HandlerReturns(id, hasBody) => EndRequestKeeps(w, id);
    case PullChunk(_) =>
    case PullDone(id) => EndRequestKeeps(w, id);
    case PullFails(id) => EndRequestKeeps(w, id);
    case CancelBody(id) => EndRequestKeeps(w, id);
    case Drain =>
    case Wait => WaitKeeps(w.gate);
  }

  /** The part of the gateway that admits requests and lets go of them. */
  class RequestTracker {
    const gate: AdmissionGate
    var requestReleased: seq<bool>
    var activeGatewayRequests: int
    ghost var clamped: bool
    ghost var lives: seq<Life>

    ghost function View(): Gateway
      reads this, gate
    {
      Gateway(gate.State(), requestReleased, activeGatewayRequests, clamped, lives)
    }

    constructor (maximum: nat)
      requires maximum > 0
      ensures View() == NewGateway(maximum) && Inv(View()) && fresh(gate)
    {
      gate := new AdmissionGate(maximum);
      requestReleased, activeGatewayRequests, clamped, lives := [], 0, false, [];
    }

    /** A request arrives; admitted, it is counted and handled. */
    method Admit() returns (admitted: Admitted)
      requires Inv(View())
      modifies this, gate
      ensures View() == After(old(View()), Arrive) && Inv(View())
      ensures admitted == AfterAcquire(old(gate.State())).1
    {
      hide GateInv;
      EventKeeps(View(), Arrive);
      admitted := gate.TryAcquire();
      if admitted.Accepted? {
        requestReleased := requestReleased + [false];
        activeGatewayRequests := activeGatewayRequests + 1;
        lives := lives + [Handling];
      }
    }

    /** The request's release closure, on whichever path it is called. */
    method ReleaseRequest(id: nat)
      requires Inv(View()) && id < |lives|
      modifies this, gate
      ensures View() == EndRequest(old(View()), id) && Inv(View())
    {
      hide GateInv, AfterRelease;
      EndRequestKeeps(View(), id);
      ghost var over := lives[id := Over];
      if requestReleased[id] {
        lives := over;
        return;
      }
      requestReleased := requestReleased[id := true];
      gate.Release(id);
      lives := over;
      clamped := clamped || activeGatewayRequests < 1;
      activeGatewayRequests := if activeGatewayRequests >= 1 then activeGatewayRequests - 1 else 0;
    }
  }

  // ----- whole runs -----

  ghost predicate Reaches(w: Gateway, events: seq<Event>, t: Gateway)
    requires SameLengths(w)
    decreases |events|
  {
    if events == [] then w == t
    else Possible(w, events[0]) && SameLengths(After(w, events[0])) && Reaches(After(w, events[0]), events[1..], t)
  }

  /** The request an event ends, if it ends one. */
  function Ends(e: Event): set<nat> {
    match e
    case HandlerThrows(id) => {id}
    case HandlerReturns(id, hasBody) => if hasBody then {} else {id}
    case PullDone(id) => {id}
    case PullFails(id) => {id}
    case CancelBody(id) => {id}
    case _ => {}
  }

  function EndedBy(events: seq<Event>): set<nat> {
    if events == [] then {} else Ends(events[0]) + EndedBy(events[1..])
  }

  /** What is known of a run: which requests ended, and that the rest are counted. */
  ghost predicate Accounted(w: Gateway, ended: set<nat>) {
    && Inv(w) && w.gate.active + |ended| == |w.lives|
    && forall id: nat :: id in ended <==> id < |w.lives| && w.lives[id].Over?
  }

  lemma EndRequestAccounts(w: Gateway, ended: set<nat>, id: nat)
    requires Accounted(w, ended) && id < |w.lives|
    ensures Accounted(EndRequest(w, id), ended + {id})
  {
    hide GateInv, AfterRelease;
    EndRequestKeeps(w, id);
    ReleaseOnce(w.gate, id);
    if id in ended {
      assert ended + {id} == ended;
    }
  }

  lemma EventAccounts(w: Gateway, ended: set<nat>, e: Event)
    requires Accounted(w, ended) && Possible(w, e)
    ensures Accounted(After(w, e), ended + Ends(e))
  {
    hide EndRequest, GateInv;
    EventKeeps(w, e);
    if Ends(e) == {} {
      assert ended + {} == ended;
    } else {
      var id :| Ends(e) == {id};
      EndRequestAccounts(w, ended, id);
      assert After(w, e) == EndRequest(w, id);
    }
  }

  lemma AccountedLengths(w: Gateway, ended: set<nat>)
    requires Accounted(w, ended)
    ensures SameLengths(w)
  {
  }

  lemma UnionInOrder(a: set<nat>, b: set<nat>, c: set<nat>)
    ensures a + (b + c) == a + b + c
    ensures a + {} == a
  {
  }

  lemma {:induction false} RunAccounts(w: Gateway, ended: set<nat>, events: seq<Event>, t: Gateway)
    requires Accounted(w, ended) && Reaches(w, events, t)
    ensures Accounted(t, ended + EndedBy(events))
    decreases |events|
  {
    AccountedLengths(w, ended);
    hide After, Possible, Inv, Ends, Accounted;
    if events == [] {
      UnionInOrder(ended, {}, {});
    } else {
      var e, rest := events[0], events[1..];
      EventAccounts(w, ended, e);
      RunAccounts(After(w, e), ended + Ends(e), rest, t);
      UnionInOrder(ended, Ends(e), EndedBy(rest));
    }
  }

  /** Admission conservation. In every run, however often the completion, error,
      cancel and throw paths of a request call its release: the active count is
      admissions less the distinct requests ended, is the number of requests still
      handled or streamed, is what the gauge shows, and is within the maximum; the
      gauge's clamp never acts. */
  lemma ActiveIsUnfinished(maximum: nat, events: seq<Event>, w: Gateway)
    requires maximum > 0 && Reaches(NewGateway(maximum), events, w)
    ensures w.gate.active == |w.lives| - |EndedBy(events)| == Unfinished(w.lives) == w.gauge
    ensures 0 <= w.gate.active <= w.gate.maximum && !w.clamped
    ensures forall id :: 0 <= id < |w.lives| ==> (w.lives[id].Over? <==> id in EndedBy(events))
  {
    assert Accounted(NewGateway(maximum), {});
    RunAccounts(NewGateway(maximum), {}, events, w);
    assert {} + EndedBy(events) == EndedBy(events);
    UnfinishedIsUnreleased(w.lives, w.gate.released);
  }

  lemma EventWhileDraining(w: Gateway, e: Event)
    requires Inv(w) && !w.gate.accepting && Possible(w, e)
    ensures var t := After(w, e);
      !t.gate.accepting && |t.lives| == |w.lives| && t.gate.active <= w.gate.active
  {
    if Ends(e) != {} {
      var id :| Ends(e) == {id};
      ReleaseOnce(w.gate, id);
    }
  }

  /** Once draining starts nothing is admitted, the count never rises, and an idle
      gate stays idle, whatever happens next. */
  lemma {:induction false} DrainingOnlyEmpties(w: Gateway, events: seq<Event>, t: Gateway)
    requires Inv(w) && !w.gate.accepting && Reaches(w, events, t)
    ensures Inv(t) && !t.gate.accepting && |t.lives| == |w.lives| && t.gate.active <= w.gate.active
    ensures w.gate.active == 0 ==> t.gate.active == 0
    decreases |events|
  {
    hide After, GateInv;
    if events != [] {
      EventKeeps(w, events[0]);
      EventWhileDraining(w, events[0]);
      DrainingOnlyEmpties(After(w, events[0]), events[1..], t);
    }
    ActiveIsCount(t);
  }

  lemma ActiveIsCount(w: Gateway)
    requires Inv(w)
    ensures w.gate.active >= 0
  {
  }

  lemma {:induction false} RunKeeps(w: Gateway, events: seq<Event>, t: Gateway)
    requires Inv(w) && Reaches(w, events, t)
    ensures Inv(t)
    decreases |events|
  {
    hide After, GateInv;
    if events != [] {
      EventKeeps(w, events[0]);
      RunKeeps(After(w, events[0]), events[1..], t);
    }
  }

  /** In every reachable state each waiter has been resolved once or is still
      waiting for a busy gate; an idle gate has left nobody waiting. */
  lemma WaitersResolveOnce(maximum: nat, events: seq<Event>, w: Gateway)
    requires maximum > 0 && Reaches(NewGateway(maximum), events, w)
    ensures forall id :: 0 <= id < |w.gate.resolutions| ==>
      w.gate.resolutions[id] <= 1 && (w.gate.resolutions[id] == 0 ==> w.gate.active > 0)
  {
    RunKeeps(NewGateway(maximum), events, w);
    forall id | 0 <= id < |w.gate.resolutions| && w.gate.resolutions[id] == 0
      ensures w.gate.active > 0
    {
      assert Occurrences(w.gate.idleWaiters, id) == 1;
    }
  }

  /** A waiter is resolved only by the event that leaves the gate idle, and never unresolved. */
  lemma ResolvedAtZero(w: Gateway, e: Event, id: nat)
    requires Inv(w) && Possible(w, e) && id < |After(w, e).gate.resolutions|
    ensures var t := After(w, e);
      var before := if id < |w.gate.resolutions| then w.gate.resolutions[id] else 0;
      && |w.gate.resolutions| <= |t.gate.resolutions|
      && before <= t.gate.resolutions[id]
      && (before != t.gate.resolutions[id] ==> t.gate.active == 0)
  {
  }

  /** A waiter listed while a request is handled stays unresolved through draining
      and a refused arrival, and is resolved by that request's end. */
  lemma LastRequestWakesTheWaiter(maximum: nat) returns (busy: Gateway, idle: Gateway)
    requires maximum > 0
    ensures Reaches(NewGateway(maximum), [Arrive, Wait, Drain, Arrive], busy)
    ensures Reaches(busy, [HandlerThrows(0)], idle)
    ensures busy.lives == [Handling] && busy.gate.resolutions == [0] && busy.gauge == 1
    ensures idle.lives == [Over] && idle.gate.resolutions == [1] && idle.gauge == 0
  {
    var w := After(After(NewGateway(maximum), Arrive), Wait);
    busy := After(After(w, Drain), Arrive);
    idle := After(busy, HandlerThrows(0));
    assert Reaches(busy, [], busy) && Reaches(idle, [], idle);
    assert [Drain, Arrive][1..] == [Arrive] && [Wait, Drain, Arrive][1..] == [Drain, Arrive];
    assert [Arrive, Wait, Drain, Arrive][1..] == [Wait, Drain, Arrive];
    assert busy.gate.idleWaiters == [0] && Occurrences([0], 0) == 1;
  }
}
