/** The breaker as objects updated in place: circuits are shared mutable
    records, the map is iterated in insertion order, and a permit carries a
    flag that lets only its first completion act. Each method is the
    corresponding step of CircuitModel. */
module CircuitBreaker {
  import opened Arithmetic
  import opened Text
  import opened CircuitModel

  class CircuitRecord {
    var state: CircuitState
    var consecutiveFailures: nat
    var openedUntil: int
    var lastTouched: int

    constructor (now: int)
      ensures Value() == NewCircuit(now)
    {
      state, consecutiveFailures, openedUntil, lastTouched := Closed, 0, 0, now;
    }

    function Value(): Circuit
      reads this
    {
      Circuit(state, consecutiveFailures, openedUntil, lastTouched)
    }
  }

  class UpstreamCircuitBreaker {
    const cfg: Config
    var order: seq<Key>
    var records: map<Key, CircuitRecord>
    ghost var log: seq<Transition>

    ghost function Abs(): Breaker
      reads this, records.Values
    {
      Breaker(order, map k | k in records :: records[k].Value(), log)
    }

    /** Each key has its own record. */
    ghost predicate Wired()
      reads this`records
    {
      forall j, k :: j in records && k in records && j != k ==> records[j] != records[k]
    }

    ghost predicate Valid()
      reads this, records.Values
    {
      ValidConfig(cfg) && Inv(cfg, Abs()) && Wired()
    }

    constructor (cfg: Config)
      requires ValidConfig(cfg)
      ensures Valid() && Abs() == EMPTY && this.cfg == cfg && records == map[]
    {
      this.cfg := cfg;
      order, records, log := [], map[], [];
    }

    /** The scan for the closed circuit touched longest ago. */
    method FindVictim() returns (candidate: Option<Key>)
      requires Valid()
      ensures candidate == Victim(Abs())
    {
      candidate := None;
      ghost var circuits := Abs().circuits;
      for i := 0 to |order|
        invariant candidate.Some? ==> candidate.value in records
        invariant Candidate(order[i..], circuits, candidate) == Victim(Abs())
      {
        var key := order[i];
        assert key in circuits;
        assert order[i..][0] == key && order[i..][1..] == order[i + 1..];
        var record := records[key];
        if record.state == Closed && (candidate.None? || record.lastTouched < records[candidate.value].lastTouched) {
          candidate := Some(key);
        }
      }
    }

    method EvictClosedCircuit() returns (evicted: bool)
      requires Valid()
      modifies this`order, this`records
      ensures Wired()
      ensures evicted <==> Victim(old(Abs())).Some?
      ensures records.Keys <= old(records.Keys)
      ensures Abs() == if evicted then Delete(old(Abs()), Victim(old(Abs())).value) else old(Abs())
      ensures records.Values <= old(records.Values)
    {
      var i := VictimIsLeastRecent(Abs());
      var candidate := FindVictim();
      if candidate.None? {
        return false;
      }
      Discard(candidate.value);
      return true;
    }

    /** `Map.delete` */
    method Discard(key: Key)
      requires Wired() && key in records
      modifies this`order, this`records
      ensures Wired() && Abs() == Delete(old(Abs()), key)
      ensures records == old(records) - {key}
      ensures records.Values <= old(records.Values)
    {
      ghost var before := Abs();
      order := Remove(order, key);
      records := records - {key};
      assert Abs().circuits == before.circuits - {key};
    }

    /** `Map.set` of a new record. */
    method Insert(key: Key, now: int) returns (record: CircuitRecord)
      requires Wired() && key !in records
      modifies this`order, this`records
      ensures Wired() && fresh(record) && records == old(records)[key := record]
      ensures Abs() == Put(old(Abs()), key, NewCircuit(now))
    {
      ghost var before := Abs();
      record := new CircuitRecord(now);
      order := order + [key];
      records := records[key := record];
      assert Abs().circuits == before.circuits[key := NewCircuit(now)];
    }

    method FindOrCreate(key: Key, now: int) returns (record: CircuitRecord?)
      requires Valid()
      modifies this`order, this`records
      ensures Wired() && fresh(records.Values - old(records.Values))
      ensures match CircuitModel.FindOrCreate(cfg, old(Abs()), key, now)
        case None => record == null && Abs() == old(Abs())
        case Some(b) => Abs() == b && key in records && record == records[key]
    {
      if key in records {
        return records[key];
      }
      if |order| >= cfg.maximum {
        var evicted := EvictClosedCircuit();
        if !evicted {
          return null;
        }
      }
      record := Insert(key, now);
    }

    /** Replaces the fields of one record in place. */
    method Assign(key: Key, c: Circuit)
      requires Wired() && key in records
      modifies records.Values
      ensures Abs() == Put(old(Abs()), key, c)
    {
      ghost var before := Abs();
      var record := records[key];
      record.state, record.consecutiveFailures := c.state, c.failures;
      record.openedUntil, record.lastTouched := c.openedUntil, c.lastTouched;
      assert Abs().circuits == before.circuits[key := c];
    }

    /** `#transition`; the observer's view is the log. */
    method MoveTo(key: Key, next: CircuitState)
      requires Wired() && key in records
      modifies this`log, records.Values
      ensures Abs() == CircuitModel.MoveTo(old(Abs()), key, next)
    {
      var record := records[key];
      var previous := record.state;
      if previous != next {
        Assign(key, record.Value().(state := next));
        log := log + [Transition(previous, next)];
      }
    }

    method Reopen(key: Key, until: int)
      requires Wired() && key in records
      modifies this`log, records.Values
      ensures Abs() == CircuitModel.Reopen(old(Abs()), key, until)
    {
      Assign(key, records[key].Value().(openedUntil := until));
      MoveTo(key, Open);
    }

    /** The part of `acquire` that follows `#findOrCreate`. */
    method AcquireFound(upstream: Key, now: int) returns (outcome: Outcome)
      requires Wired() && upstream in records
      modifies this`log, records.Values
      ensures (Abs(), outcome) == CircuitModel.AcquireFound(old(Abs()), upstream, now)
    {
      var record := records[upstream];
      Assign(upstream, record.Value().(lastTouched := now));
      if record.state == Open {
        if now < record.openedUntil {
          return Denied(RetryAfter(record.openedUntil - now));
        }
        MoveTo(upstream, HalfOpen);
        return Granted(true);
      }
      if record.state == HalfOpen {
        return Denied(1);
      }
      return Granted(false);
    }

    method Acquire(upstream: Key, now: int) returns (outcome: Outcome, permit: Permit?)
      requires Valid()
      modifies this, records.Values
      ensures Valid() && fresh(records.Values - old(records.Values))
      ensures (Abs(), outcome) == CircuitModel.Acquire(cfg, old(Abs()), upstream, now)
      ensures outcome.Denied? <==> permit == null
      ensures outcome.Granted? ==> fresh(permit) && permit.breaker == this && !permit.completed
      ensures outcome.Granted? ==> permit.key == upstream && permit.probe == outcome.probe
    {
      hide CircuitModel.AcquireFound, CircuitModel.FindOrCreate, Consistent, Shaped;
      AcquireKeeps(cfg, Abs(), upstream, now);
      var record := FindOrCreate(upstream, now);
      if record == null {
        return Denied(1), null;
      }
      outcome := AcquireFound(upstream, now);
      permit := null;
      if outcome.Granted? {
        permit := new Permit(this, upstream, outcome.probe);
      }
    }

    method RecordSuccess(key: Key)
      requires Valid()
      modifies this, records.Values
      ensures Valid() && records.Values <= old(records.Values)
      ensures Abs() == CircuitModel.RecordSuccess(old(Abs()), key)
    {
      RecordSuccessKeeps(cfg, Abs(), key);
      if key !in records {
        return;
      }
      MoveTo(key, Closed);
      Discard(key);
    }

    method CountFailure(key: Key, now: int)
      requires Wired() && key in records && records[key].state == Closed
      modifies this`log, records.Values
      ensures var c := old(Abs()).circuits[key];
        var counted := Put(old(Abs()), key, c.(failures := c.failures + 1));
        Abs() == if c.failures + 1 >= cfg.threshold then CircuitModel.Reopen(counted, key, now + cfg.openMs) else counted
    {
      Assign(key, records[key].Value().(failures := records[key].consecutiveFailures + 1));
      if records[key].consecutiveFailures >= cfg.threshold {
        Reopen(key, now + cfg.openMs);
      }
    }

    /** The part of `#recordFailure` that follows `#findOrCreate`. */
    method FailFound(key: Key, now: int)
      requires Wired() && key in records
      modifies this`log, records.Values
      ensures Abs() == CircuitModel.FailFound(cfg, old(Abs()), key, now)
    {
      var record := records[key];
      Assign(key, record.Value().(lastTouched := now));
      if record.state == HalfOpen {
        Reopen(key, now + cfg.openMs);
      } else if record.state == Open {
        Reopen(key, Max(record.openedUntil, now + cfg.openMs));
      } else {
        CountFailure(key, now);
      }
    }

    method RecordFailure(key: Key, now: int)
      requires Valid()
      modifies this, records.Values
      ensures Valid() && fresh(records.Values - old(records.Values))
      ensures Abs() == CircuitModel.RecordFailure(cfg, old(Abs()), key, now)
    {
      RecordFailureKeeps(cfg, Abs(), key, now);
      var record := FindOrCreate(key, now);
      if record != null {
        FailFound(key, now);
      }
    }

    method Abandon(key: Key, halfOpenProbe: bool, now: int)
      requires Valid()
      modifies this, records.Values
      ensures Valid() && records.Values <= old(records.Values)
      ensures Abs() == CircuitModel.Abandon(old(Abs()), key, halfOpenProbe, now)
    {
      AbandonKeeps(cfg, Abs(), key, halfOpenProbe, now);
      if key !in records {
        return;
      }
      if halfOpenProbe && records[key].state == HalfOpen {
        Reopen(key, now);
        return;
      }
      if records[key].state == Closed && records[key].consecutiveFailures == 0 {
        Discard(key);
      }
    }
  }

  class Permit {
    const breaker: UpstreamCircuitBreaker
    const key: Key
    const probe: bool
    var completed: bool

    constructor (breaker: UpstreamCircuitBreaker, key: Key, probe: bool)
      ensures this.breaker == breaker && this.key == key && this.probe == probe && !completed
    {
      this.breaker, this.key, this.probe, completed := breaker, key, probe, false;
    }

    method Succeed()
      requires breaker.Valid()
      modifies this`completed, breaker, breaker.records.Values
      ensures breaker.Valid() && completed && fresh(breaker.records.Values - old(breaker.records.Values))
      ensures breaker.Abs() ==
        if old(completed) then old(breaker.Abs()) else CircuitModel.RecordSuccess(old(breaker.Abs()), key)
    {
      if !completed {
        completed := true;
        breaker.RecordSuccess(key);
      }
    }

    method Fail(now: int)
      requires breaker.Valid()
      modifies this`completed, breaker, breaker.records.Values
      ensures breaker.Valid() && completed && fresh(breaker.records.Values - old(breaker.records.Values))
      ensures breaker.Abs() ==
        if old(completed) then old(breaker.Abs()) else CircuitModel.RecordFailure(breaker.cfg, old(breaker.Abs()), key, now)
    {
      if !completed {
        completed := true;
        breaker.RecordFailure(key, now);
      }
    }

    method GiveUp(now: int)
      requires breaker.Valid()
      modifies this`completed, breaker, breaker.records.Values
      ensures breaker.Valid() && completed && fresh(breaker.records.Values - old(breaker.records.Values))
      ensures breaker.Abs() ==
        if old(completed) then old(breaker.Abs()) else CircuitModel.Abandon(old(breaker.Abs()), key, probe, now)
    {
      if !completed {
        completed := true;
        breaker.Abandon(key, probe, now);
      }
    }
  }

  /** How the proxied request ended: a response, or an exception. */
  datatype UpstreamResult = Responded(status: nat) | Threw

  /** What a request's outcome means for its upstream. */
  function Verdict(cfg: Config, b: Breaker, key: Key, probe: bool, result: UpstreamResult, aborted: bool, now: int): Breaker
    requires Consistent(b)
  {
    match result
    case Responded(status) =>
      if status >= 500 then CircuitModel.RecordFailure(cfg, b, key, now) else CircuitModel.RecordSuccess(b, key)
    case Threw =>
      if aborted then CircuitModel.Abandon(b, key, probe, now) else CircuitModel.RecordFailure(cfg, b, key, now)
  }

  // ----- what settling means, said of the circuits before and after -----

  /** The origin has no circuit any more, and every other is as it was. */
  ghost predicate Forgiven(b: Breaker, b': Breaker, key: Key) {
    key !in b'.circuits && forall k :: k != key ==>
      (k in b'.circuits <==> k in b.circuits) && (k in b.circuits ==> b'.circuits[k] == b.circuits[k])
  }

  /** One more failure of a circuit: its count rises until it opens at the
      threshold, and a circuit that is not closed is open until a later deadline. */
  ghost predicate FailedOnce(cfg: Config, c: Circuit, c': Circuit, now: int) {
    if c.state == Closed then
      && c'.failures == c.failures + 1
      && (c'.failures < cfg.threshold ==> c'.state == Closed)
      && (c'.failures >= cfg.threshold ==> c'.state == Open && c'.openedUntil == now + cfg.openMs)
    else
      && c'.state == Open && c'.failures == c.failures && c'.openedUntil >= now + cfg.openMs
      && (c.state == HalfOpen ==> c'.openedUntil == now + cfg.openMs)
      && (c.state == Open ==> c'.openedUntil >= c.openedUntil)
      && (c'.openedUntil == now + cfg.openMs || c'.openedUntil == c.openedUntil)
  }

  /** A failure is counted against the origin, whose circuit starts closed with no
      failures if it has none; only a breaker full of unavailable circuits has no
      place for it and stays as it was. */
  ghost predicate Blamed(cfg: Config, b: Breaker, b': Breaker, key: Key, now: int) {
    if key in b.circuits || |b.order| < cfg.maximum || (exists k :: k in b.circuits && b.circuits[k].state == Closed) then
      && key in b'.circuits && OthersKept(b, b', key)
      && FailedOnce(cfg, if key in b.circuits then b.circuits[key] else Circuit(Closed, 0, 0, now), b'.circuits[key], now)
    else b' == b
  }

  /** No failure is counted: an abandoned probe reopens the circuit at once, a
      closed circuit without failures goes, and anything else stays as it was. */
  ghost predicate LetGo(b: Breaker, b': Breaker, key: Key, probe: bool, now: int) {
    if key in b.circuits && probe && b.circuits[key].state == HalfOpen then
      b'.circuits == b.circuits[key := b.circuits[key].(state := Open, openedUntil := now)]
    else if key in b.circuits && b.circuits[key].state == Closed && b.circuits[key].failures == 0 then
      Forgiven(b, b', key)
    else b' == b
  }

  lemma SuccessForgives(b: Breaker, key: Key)
    ensures Forgiven(b, CircuitModel.RecordSuccess(b, key), key)
  {
  }

  lemma FailureBlames(cfg: Config, b: Breaker, key: Key, now: int)
    requires ValidConfig(cfg) && Inv(cfg, b)
    ensures Blamed(cfg, b, CircuitModel.RecordFailure(cfg, b, key, now), key, now)
  {
    hide CircuitModel.FailFound, CircuitModel.FindOrCreate, Consistent;
    FindOrCreateEffect(cfg, b, key, now);
    RoomMeans(cfg, b, key, now);
    var found := CircuitModel.FindOrCreate(cfg, b, key, now);
    if found.Some? {
      FailFoundEffect(cfg, found.value, key, now);
    }
  }

  lemma RoomMeans(cfg: Config, b: Breaker, key: Key, now: int)
    requires Consistent(b)
    ensures CircuitModel.FindOrCreate(cfg, b, key, now).Some? <==>
      key in b.circuits || |b.order| < cfg.maximum || exists k :: k in b.circuits && b.circuits[k].state == Closed
  {
    var i := VictimIsLeastRecent(b);
  }

  lemma AbandonLetsGo(b: Breaker, key: Key, probe: bool, now: int)
    ensures LetGo(b, CircuitModel.Abandon(b, key, probe, now), key, probe, now)
  {
  }

  /** A response below 500 forgives the origin, any other response and any throw
      that is not an abort is blamed on it, and an abort lets go. */
  lemma VerdictMeans(cfg: Config, b: Breaker, key: Key, probe: bool, result: UpstreamResult, aborted: bool, now: int)
    requires ValidConfig(cfg) && Inv(cfg, b)
    ensures var b' := Verdict(cfg, b, key, probe, result, aborted, now);
      && Inv(cfg, b')
      && (result.Responded? && result.status < 500 ==> Forgiven(b, b', key))
      && (result.Responded? && result.status >= 500 ==> Blamed(cfg, b, b', key, now))
      && (result.Threw? && !aborted ==> Blamed(cfg, b, b', key, now))
      && (result.Threw? && aborted ==> LetGo(b, b', key, probe, now))
  {
    hide CircuitModel.RecordSuccess, CircuitModel.RecordFailure, CircuitModel.Abandon, Forgiven, Blamed, LetGo;
    SuccessForgives(b, key);
    FailureBlames(cfg, b, key, now);
    AbandonLetsGo(b, key, probe, now);
    RecordSuccessKeeps(cfg, b, key);
    RecordFailureKeeps(cfg, b, key, now);
    AbandonKeeps(cfg, b, key, probe, now);
  }

  /** A request to an origin: when it asks for a permit and when which status comes back. */
  datatype Exchange = Exchange(asked: int, status: nat, answered: int)

  /** One request after another to one origin: each permit is settled before the
      next request asks, and a refused request has no response. */
  function Answered(cfg: Config, b: Breaker, key: Key, exchanges: seq<Exchange>): (Breaker, seq<Outcome>)
    requires ValidConfig(cfg) && Inv(cfg, b)
    decreases |exchanges|
  {
    if exchanges == [] then (b, [])
    else
      var e := exchanges[0];
      AcquireKeeps(cfg, b, key, e.asked);
      var (b1, outcome) := CircuitModel.Acquire(cfg, b, key, e.asked);
      var b2 := if outcome.Denied? then b1
                else Verdict(cfg, b1, key, outcome.probe, Responded(e.status), false, e.answered);
      VerdictMeans(cfg, b1, key, outcome.Granted? && outcome.probe, Responded(e.status), false, e.answered);
      var (b3, outcomes) := Answered(cfg, b2, key, exchanges[1..]);
      (b3, [outcome] + outcomes)
  }

  /** However many responses below 500 there are, an origin with a place in the
      breaker is never refused and ends with nothing against it. */
  lemma {:induction false} GoodAnswersNeverOpen(cfg: Config, b: Breaker, key: Key, exchanges: seq<Exchange>)
    requires ValidConfig(cfg) && Inv(cfg, b) && (forall i :: 0 <= i < |exchanges| ==> exchanges[i].status < 500)
    requires if key in b.circuits then b.circuits[key].state == Closed else HasRoom(cfg, b)
    ensures var (b', outcomes) := Answered(cfg, b, key, exchanges);
      && |outcomes| == |exchanges| && (forall i :: 0 <= i < |outcomes| ==> outcomes[i] == Granted(false))
      && (exchanges != [] ==> key !in b'.circuits)
    decreases |exchanges|
  {
    hide CircuitModel.Acquire, Verdict;
    if exchanges != [] {
      AcquireKeeps(cfg, b, key, exchanges[0].asked);
      AcquireEffect(cfg, b, key, exchanges[0].asked);
      GrantedWithRoom(cfg, b, key, exchanges[0].asked);
      var b1 := CircuitModel.Acquire(cfg, b, key, exchanges[0].asked).0;
      VerdictMeans(cfg, b1, key, false, Responded(exchanges[0].status), false, exchanges[0].answered);
      var b2 := Verdict(cfg, b1, key, false, Responded(exchanges[0].status), false, exchanges[0].answered);
      RoomAgain(cfg, b1, b2, key);
      GoodAnswersNeverOpen(cfg, b2, key, exchanges[1..]);
    }
  }

  /** There is a free place, or a closed circuit to evict. */
  ghost predicate HasRoom(cfg: Config, b: Breaker) {
    |b.order| < cfg.maximum || exists k :: k in b.circuits && b.circuits[k].state == Closed
  }

  lemma GrantedWithRoom(cfg: Config, b: Breaker, key: Key, now: int)
    requires ValidConfig(cfg) && Inv(cfg, b)
    requires if key in b.circuits then b.circuits[key].state == Closed else HasRoom(cfg, b)
    ensures CircuitModel.Acquire(cfg, b, key, now).1 == Granted(false)
    ensures key in CircuitModel.Acquire(cfg, b, key, now).0.circuits
  {
    hide CircuitModel.FindOrCreate, CircuitModel.AcquireFound;
    RoomMeans(cfg, b, key, now);
    FindOrCreateEffect(cfg, b, key, now);
    AcquireEffect(cfg, b, key, now);
    var found := CircuitModel.FindOrCreate(cfg, b, key, now).value;
    AcquireFoundEffect(found, key, now);
    FoundClosed(found, key, now);
  }

  lemma FoundClosed(b: Breaker, key: Key, now: int)
    requires key in b.circuits && b.circuits[key].state == Closed
    ensures CircuitModel.AcquireFound(b, key, now).1 == Granted(false)
  {
  }

  /** The place of a circuit that went is free. */
  lemma RoomAgain(cfg: Config, b: Breaker, b': Breaker, key: Key)
    requires Inv(cfg, b) && Inv(cfg, b') && key in b.circuits && Forgiven(b, b', key)
    ensures |b'.order| < cfg.maximum
  {
    DistinctIsSmaller(b'.order, b.order, key);
  }

  lemma {:induction false} DistinctIsSmaller(some: seq<Key>, all: seq<Key>, extra: Key)
    requires forall i, j :: 0 <= i < j < |some| ==> some[i] != some[j]
    requires (forall k :: k in some ==> k in all) && extra in all && extra !in some
    ensures |some| < |all|
  {
    if some != [] {
      var rest := Remove(all, some[0]);
      RemoveOne(all, some[0]);
      assert some[1..] == some[1..] && forall k :: k in some[1..] ==> k in some;
      DistinctIsSmaller(some[1..], rest, extra);
    }
  }

  lemma {:induction false} RemoveOne(all: seq<Key>, key: Key)
    requires key in all
    ensures |Remove(all, key)| == |all| - 1
    ensures forall k :: k in all && k != key ==> k in Remove(all, key)
  {
    if all[0] != key {
      RemoveOne(all[1..], key);
    }
  }

  /** Consecutive responses of 500 or more: the origin is let through until its
      failures reach the threshold, and the circuit is then open for the whole
      open period. */
  lemma {:induction false} BadAnswersOpen(cfg: Config, b: Breaker, key: Key, exchanges: seq<Exchange>)
    requires ValidConfig(cfg) && Inv(cfg, b) && exchanges != []
    requires forall i :: 0 <= i < |exchanges| ==> exchanges[i].status >= 500
    requires if key in b.circuits then b.circuits[key].state == Closed else HasRoom(cfg, b)
    requires |exchanges| == cfg.threshold - (if key in b.circuits then b.circuits[key].failures else 0)
    ensures var (b', outcomes) := Answered(cfg, b, key, exchanges);
      && |outcomes| == |exchanges| && (forall i :: 0 <= i < |outcomes| ==> outcomes[i] == Granted(false))
      && key in b'.circuits && b'.circuits[key].state == Open
      && b'.circuits[key].openedUntil == exchanges[|exchanges| - 1].answered + cfg.openMs
    decreases |exchanges|
  {
    hide CircuitModel.Acquire, Verdict;
    AcquireKeeps(cfg, b, key, exchanges[0].asked);
    AcquireEffect(cfg, b, key, exchanges[0].asked);
    GrantedWithRoom(cfg, b, key, exchanges[0].asked);
    var b1 := CircuitModel.Acquire(cfg, b, key, exchanges[0].asked).0;
    VerdictMeans(cfg, b1, key, false, Responded(exchanges[0].status), false, exchanges[0].answered);
    var b2 := Verdict(cfg, b1, key, false, Responded(exchanges[0].status), false, exchanges[0].answered);
    if |exchanges| > 1 {
      BadAnswersOpen(cfg, b2, key, exchanges[1..]);
    } else {
      assert exchanges[1..] == [];
      assert Answered(cfg, b2, key, []) == (b2, []);
    }
  }

  /** The try and catch around the upstream call. Completing the request may
      itself throw after the response was recorded, which runs the catch block as
      well, and so may completing the error response there; the permit still
      reports once, and what it reports is the verdict on the upstream alone. */
  method SettlePermit(permit: Permit, result: UpstreamResult, completionThrows: bool, aborted: bool,
                      fallbackThrows: bool, now: int)
    returns (throws: bool)
    requires permit.breaker.Valid() && !permit.completed
    modifies permit`completed, permit.breaker, permit.breaker.records.Values
    ensures permit.breaker.Valid() && permit.completed
    ensures permit.breaker.Abs() ==
      Verdict(permit.breaker.cfg, old(permit.breaker.Abs()), permit.key, permit.probe, result, aborted, now)
    ensures result.Responded? && result.status < 500 ==>
      Forgiven(old(permit.breaker.Abs()), permit.breaker.Abs(), permit.key)
    ensures (result.Responded? && result.status >= 500) || (result.Threw? && !aborted) ==>
      Blamed(permit.breaker.cfg, old(permit.breaker.Abs()), permit.breaker.Abs(), permit.key, now)
    ensures result.Threw? && aborted ==>
      LetGo(old(permit.breaker.Abs()), permit.breaker.Abs(), permit.key, permit.probe, now)
    ensures throws <==> (result.Threw? || completionThrows) && (aborted || fallbackThrows)
  {
    hide Forgiven, Blamed, LetGo;
    VerdictMeans(permit.breaker.cfg, permit.breaker.Abs(), permit.key, permit.probe, result, aborted, now);
    var caught := true;
    if result.Responded? {
      if result.status >= 500 {
        permit.Fail(now);
      } else {
        permit.Succeed();
      }
      caught := completionThrows;
    }
    if caught {
      if aborted {
        permit.GiveUp(now);
        return true;
      }
      permit.Fail(now);
      return fallbackThrows;
    }
    return false;
  }
}
