/** The upstream circuit breaker as a function of its state: a bounded map of
    circuits in insertion order, and the log of transitions its observer saw. */
module CircuitModel {
  import opened Arithmetic
  import opened Text

  type Key = string

  datatype CircuitState = Closed | Open | HalfOpen

  datatype Circuit = Circuit(state: CircuitState, failures: nat, openedUntil: int, lastTouched: int)

  datatype Transition = Transition(previous: CircuitState, next: CircuitState)

  datatype Config = Config(threshold: nat, openMs: nat, maximum: nat)

  datatype Breaker = Breaker(order: seq<Key>, circuits: map<Key, Circuit>, log: seq<Transition>)

  datatype Outcome = Denied(retryAfterSeconds: int) | Granted(probe: bool)

  const EMPTY := Breaker([], map[], [])

  predicate ValidConfig(cfg: Config) {
    cfg.threshold > 0 && cfg.openMs > 0 && cfg.maximum > 0
  }

  function NewCircuit(now: int): Circuit {
    Circuit(Closed, 0, 0, now)
  }

  /** Whole seconds, rounded up, at least one. */
  function RetryAfter(remainingMs: int): (seconds: int)
    ensures seconds >= 1 && seconds * 1000 >= remainingMs
    ensures seconds == 1 || (seconds - 1) * 1000 < remainingMs
  {
    Max(1, (remainingMs + 999) / 1000)
  }

  function Put(b: Breaker, key: Key, c: Circuit): Breaker {
    Breaker(if key in b.circuits then b.order else b.order + [key], b.circuits[key := c], b.log)
  }

  function Remove(order: seq<Key>, key: Key): seq<Key> {
    if order == [] then []
    else if order[0] == key then order[1..]
    else [order[0]] + Remove(order[1..], key)
  }

  function Delete(b: Breaker, key: Key): Breaker {
    Breaker(Remove(b.order, key), b.circuits - {key}, b.log)
  }

  /** `#transition`: silent when nothing changes. */
  function MoveTo(b: Breaker, key: Key, next: CircuitState): Breaker
    requires key in b.circuits
  {
    var c := b.circuits[key];
    if c.state == next then b
    else Put(b, key, c.(state := next)).(log := b.log + [Transition(c.state, next)])
  }

  /** The scan of `#evictClosedCircuit` in insertion order: a strictly older
      closed circuit replaces the candidate, so ties keep the earlier entry. */
  function Candidate(order: seq<Key>, circuits: map<Key, Circuit>, best: Option<Key>): Option<Key>
    requires forall k :: k in order ==> k in circuits
    requires best.Some? ==> best.value in circuits
  {
    if order == [] then best
    else
      var c := circuits[order[0]];
      var better := c.state == Closed && (best.None? || c.lastTouched < circuits[best.value].lastTouched);
      Candidate(order[1..], circuits, if better then Some(order[0]) else best)
  }

  ghost predicate Consistent(b: Breaker) {
    && (forall k :: k in b.order <==> k in b.circuits)
    && forall i, j :: 0 <= i < j < |b.order| ==> b.order[i] != b.order[j]
  }

  function Victim(b: Breaker): Option<Key>
    requires Consistent(b)
  {
    Candidate(b.order, b.circuits, None)
  }

  /** The circuit for a key, created if there is room or something to evict;
      None when the breaker is full of unavailable circuits. */
  function FindOrCreate(cfg: Config, b: Breaker, key: Key, now: int): Option<Breaker>
    requires Consistent(b)
  {
    if key in b.circuits then Some(b)
    else if |b.order| >= cfg.maximum then
      match Victim(b)
      case None => None
      case Some(victim) => Some(Put(Delete(b, victim), key, NewCircuit(now)))
    else Some(Put(b, key, NewCircuit(now)))
  }

  function Touch(b: Breaker, key: Key, now: int): Breaker
    requires key in b.circuits
  {
    Put(b, key, b.circuits[key].(lastTouched := now))
  }

  function AcquireFound(b: Breaker, key: Key, now: int): (Breaker, Outcome)
    requires key in b.circuits
  {
    var b1 := Touch(b, key, now);
    var c := b1.circuits[key];
    match c.state
    case Open =>
      if now < c.openedUntil then (b1, Denied(RetryAfter(c.openedUntil - now)))
      else (MoveTo(b1, key, HalfOpen), Granted(true))
    case HalfOpen => (b1, Denied(1))
    case Closed => (b1, Granted(false))
  }

  function Acquire(cfg: Config, b: Breaker, key: Key, now: int): (Breaker, Outcome)
    requires Consistent(b)
  {
    match FindOrCreate(cfg, b, key, now)
    case None => (b, Denied(1))
    case Some(found) => AcquireFound(found, key, now)
  }

  function RecordSuccess(b: Breaker, key: Key): Breaker {
    if key in b.circuits then Delete(MoveTo(b, key, Closed), key) else b
  }

  function Reopen(b: Breaker, key: Key, until: int): Breaker
    requires key in b.circuits
  {
    MoveTo(Put(b, key, b.circuits[key].(openedUntil := until)), key, Open)
  }

  function FailFound(cfg: Config, b: Breaker, key: Key, now: int): Breaker
    requires key in b.circuits
  {
    var b1 := Touch(b, key, now);
    var c := b1.circuits[key];
    match c.state
    case HalfOpen => Reopen(b1, key, now + cfg.openMs)
    case Open => Reopen(b1, key, Max(c.openedUntil, now + cfg.openMs))
    case Closed =>
      var b2 := Put(b1, key, c.(failures := c.failures + 1));
      if c.failures + 1 >= cfg.threshold then Reopen(b2, key, now + cfg.openMs) else b2
  }

  function RecordFailure(cfg: Config, b: Breaker, key: Key, now: int): Breaker
    requires Consistent(b)
  {
    match FindOrCreate(cfg, b, key, now)
    case None => b
    case Some(found) => FailFound(cfg, found, key, now)
  }

  function Abandon(b: Breaker, key: Key, probe: bool, now: int): Breaker {
    if key !in b.circuits then b
    else
      var c := b.circuits[key];
      if probe && c.state == HalfOpen then Reopen(b, key, now)
      else if c.state == Closed && c.failures == 0 then Delete(b, key)
      else b
  }

  // ----- what every operation keeps -----

  /** A circuit is closed exactly while its count is below the threshold, and
      otherwise the count stands at the threshold. */
  predicate Shaped(cfg: Config, c: Circuit) {
    if c.state == Closed then c.failures < cfg.threshold else c.failures == cfg.threshold
  }

  ghost predicate Inv(cfg: Config, b: Breaker) {
    && Consistent(b)
    && |b.order| <= cfg.maximum
    && forall k :: k in b.circuits ==> Shaped(cfg, b.circuits[k])
  }

  lemma {:induction false} RemoveKey(order: seq<Key>, key: Key)
    requires forall i, j :: 0 <= i < j < |order| ==> order[i] != order[j]
    ensures forall k :: k in Remove(order, key) <==> k in order && k != key
    ensures forall i, j :: 0 <= i < j < |Remove(order, key)| ==> Remove(order, key)[i] != Remove(order, key)[j]
    ensures |Remove(order, key)| == |order| - (if key in order then 1 else 0)
  {
    if order != [] {
      RemoveKey(order[1..], key);
      assert order == [order[0]] + order[1..];
      assert order[0] !in order[1..];
      if order[0] != key {
        assert forall k :: k in Remove(order, key) <==> k == order[0] || k in Remove(order[1..], key);
      }
    }
  }

  lemma DeleteKeeps(b: Breaker, key: Key)
    requires Consistent(b)
    ensures Consistent(Delete(b, key))
    ensures |Delete(b, key).order| == |b.order| - (if key in b.circuits then 1 else 0)
  {
    RemoveKey(b.order, key);
  }

  lemma PutKeeps(b: Breaker, key: Key, c: Circuit)
    requires Consistent(b)
    ensures Consistent(Put(b, key, c))
    ensures |Put(b, key, c).order| == |b.order| + (if key in b.circuits then 0 else 1)
  {
  }

  /** Entry i is closed, was touched no later than any other closed entry, and
      strictly before every closed entry inserted ahead of it. */
  ghost predicate OldestClosedAt(order: seq<Key>, circuits: map<Key, Circuit>, i: nat)
    requires forall k :: k in order ==> k in circuits
  {
    && i < |order| && circuits[order[i]].state == Closed
    && (forall j :: 0 <= j < i && circuits[order[j]].state == Closed ==>
          circuits[order[i]].lastTouched < circuits[order[j]].lastTouched)
    && forall j :: i < j < |order| && circuits[order[j]].state == Closed ==>
         circuits[order[i]].lastTouched <= circuits[order[j]].lastTouched
  }

  ghost predicate NoneOlder(order: seq<Key>, circuits: map<Key, Circuit>, best: Key)
    requires best in circuits && forall k :: k in order ==> k in circuits
  {
    forall j :: 0 <= j < |order| && circuits[order[j]].state == Closed ==>
      circuits[best].lastTouched <= circuits[order[j]].lastTouched
  }

  ghost predicate NoneClosed(order: seq<Key>, circuits: map<Key, Circuit>)
    requires forall k :: k in order ==> k in circuits
  {
    forall j :: 0 <= j < |order| ==> circuits[order[j]].state != Closed
  }

  lemma {:induction false} CandidateSpec(order: seq<Key>, circuits: map<Key, Circuit>, best: Option<Key>) returns (i: nat)
    requires forall k :: k in order ==> k in circuits
    requires best.Some? ==> best.value in circuits && circuits[best.value].state == Closed
    ensures var found := Candidate(order, circuits, best);
      if best.None? && NoneClosed(order, circuits) then found == None
      else if best.Some? && NoneOlder(order, circuits, best.value) then found == best
      else
        && OldestClosedAt(order, circuits, i)
        && found == Some(order[i])
        && (best.Some? ==> circuits[order[i]].lastTouched < circuits[best.value].lastTouched)
  {
    i := 0;
    if order != [] {
      var c, rest := circuits[order[0]], order[1..];
      var better := c.state == Closed && (best.None? || c.lastTouched < circuits[best.value].lastTouched);
      var best' := if better then Some(order[0]) else best;
      var r := CandidateSpec(rest, circuits, best');
      assert forall j :: 0 < j < |order| ==> order[j] == rest[j - 1];
      if better && NoneOlder(rest, circuits, order[0]) {
        i := 0;
      } else {
        i := r + 1;
      }
    }
  }

  /** Eviction removes the closed circuit touched least recently, the earliest
      inserted among equals; it fails exactly when no circuit is closed. */
  lemma VictimIsLeastRecent(b: Breaker) returns (i: nat)
    requires Consistent(b)
    ensures Victim(b).None? <==> forall k :: k in b.circuits ==> b.circuits[k].state != Closed
    ensures Victim(b).Some? ==> OldestClosedAt(b.order, b.circuits, i) && Victim(b) == Some(b.order[i])
  {
    i := CandidateSpec(b.order, b.circuits, None);
  }

  lemma FindOrCreateKeeps(cfg: Config, b: Breaker, key: Key, now: int)
    requires ValidConfig(cfg) && Inv(cfg, b)
    ensures var found := FindOrCreate(cfg, b, key, now);
      found.Some? ==> Inv(cfg, found.value) && key in found.value.circuits && found.value.log == b.log
  {
    var i := VictimIsLeastRecent(b);
    if key !in b.circuits {
      if |b.order| >= cfg.maximum && Victim(b).Some? {
        DeleteKeeps(b, Victim(b).value);
        PutKeeps(Delete(b, Victim(b).value), key, NewCircuit(now));
      } else {
        PutKeeps(b, key, NewCircuit(now));
      }
    }
  }

  /** The circuit an operation leaves under its key. */
  function Acquired(c: Circuit, now: int): Circuit {
    c.(lastTouched := now, state := if c.state == Open && c.openedUntil <= now then HalfOpen else c.state)
  }

  function Failed(cfg: Config, c: Circuit, now: int): Circuit {
    match c.state
    case HalfOpen => c.(lastTouched := now, state := Open, openedUntil := now + cfg.openMs)
    case Open => c.(lastTouched := now, openedUntil := Max(c.openedUntil, now + cfg.openMs))
    case Closed =>
      if c.failures + 1 >= cfg.threshold
      then c.(lastTouched := now, failures := c.failures + 1, state := Open, openedUntil := now + cfg.openMs)
      else c.(lastTouched := now, failures := c.failures + 1)
  }

  lemma AcquireFoundEffect(b: Breaker, key: Key, now: int)
    requires key in b.circuits
    ensures var b' := AcquireFound(b, key, now).0;
      b'.order == b.order && b'.circuits == b.circuits[key := Acquired(b.circuits[key], now)]
  {
  }

  lemma FailFoundEffect(cfg: Config, b: Breaker, key: Key, now: int)
    requires key in b.circuits
    ensures var b' := FailFound(cfg, b, key, now);
      b'.order == b.order && b'.circuits == b.circuits[key := Failed(cfg, b.circuits[key], now)]
  {
  }

  lemma ReplaceKeeps(cfg: Config, b: Breaker, b': Breaker, key: Key, c: Circuit)
    requires Inv(cfg, b) && key in b.circuits && Shaped(cfg, c)
    requires b'.order == b.order && b'.circuits == b.circuits[key := c]
    ensures Inv(cfg, b')
  {
  }

  lemma AcquireKeeps(cfg: Config, b: Breaker, key: Key, now: int)
    requires ValidConfig(cfg) && Inv(cfg, b)
    ensures Inv(cfg, Acquire(cfg, b, key, now).0)
  {
    hide FindOrCreate, AcquireFound;
    FindOrCreateKeeps(cfg, b, key, now);
    var found := FindOrCreate(cfg, b, key, now);
    if found.Some? {
      AcquireFoundEffect(found.value, key, now);
      ReplaceKeeps(cfg, found.value, AcquireFound(found.value, key, now).0, key, Acquired(found.value.circuits[key], now));
    }
  }

  lemma RecordSuccessKeeps(cfg: Config, b: Breaker, key: Key)
    requires ValidConfig(cfg) && Inv(cfg, b)
    ensures Inv(cfg, RecordSuccess(b, key))
  {
    if key in b.circuits {
      DeleteKeeps(MoveTo(b, key, Closed), key);
    }
  }

  lemma RecordFailureKeeps(cfg: Config, b: Breaker, key: Key, now: int)
    requires ValidConfig(cfg) && Inv(cfg, b)
    ensures Inv(cfg, RecordFailure(cfg, b, key, now))
  {
    hide FindOrCreate, FailFound;
    FindOrCreateKeeps(cfg, b, key, now);
    var found := FindOrCreate(cfg, b, key, now);
    if found.Some? {
      FailFoundEffect(cfg, found.value, key, now);
      ReplaceKeeps(cfg, found.value, FailFound(cfg, found.value, key, now), key, Failed(cfg, found.value.circuits[key], now));
    }
  }

  lemma AbandonKeeps(cfg: Config, b: Breaker, key: Key, probe: bool, now: int)
    requires ValidConfig(cfg) && Inv(cfg, b)
    ensures Inv(cfg, Abandon(b, key, probe, now))
  {
    DeleteKeeps(b, key);
  }

  // ----- what every operation does to each key -----

  /** Keys other than the one operated on keep their circuit, except that a
      closed one may have been evicted. */
  ghost predicate OthersKept(b: Breaker, b': Breaker, key: Key) {
    forall k :: k != key ==>
      && (k in b'.circuits ==> k in b.circuits && b'.circuits[k] == b.circuits[k])
      && (k in b.circuits && b.circuits[k].state != Closed ==> k in b'.circuits)
  }

  lemma FindOrCreateEffect(cfg: Config, b: Breaker, key: Key, now: int)
    requires Consistent(b)
    ensures var found := FindOrCreate(cfg, b, key, now);
      && (found.None? ==> key !in b.circuits)
      && (found.Some? ==> OthersKept(b, found.value, key) && key in found.value.circuits)
      && (found.Some? ==> found.value.circuits[key] == if key in b.circuits then b.circuits[key] else NewCircuit(now))
  {
    var i := VictimIsLeastRecent(b);
  }

  lemma AcquireEffect(cfg: Config, b: Breaker, key: Key, now: int)
    requires Consistent(b)
    ensures var (b', outcome) := Acquire(cfg, b, key, now);
      && OthersKept(b, b', key)
      && (key in b.circuits ==>
            var c := b.circuits[key];
            && key in b'.circuits
            && b'.circuits[key] == c.(lastTouched := now,
                                    state := if c.state == Open && c.openedUntil <= now then HalfOpen else c.state)
            && outcome == match c.state
                 case Open => if now < c.openedUntil then Denied(RetryAfter(c.openedUntil - now)) else Granted(true)
                 case HalfOpen => Denied(1)
                 case Closed => Granted(false))
      && (key !in b.circuits ==>
            || (b' == b && outcome == Denied(1))
            || (key in b'.circuits && b'.circuits[key] == NewCircuit(now) && outcome == Granted(false)))
  {
    FindOrCreateEffect(cfg, b, key, now);
  }

  lemma RecordSuccessEffect(b: Breaker, key: Key)
    ensures OthersKept(b, RecordSuccess(b, key), key) && key !in RecordSuccess(b, key).circuits
  {
  }

  lemma RecordFailureEffect(cfg: Config, b: Breaker, key: Key, now: int)
    requires Consistent(b)
    ensures var b' := RecordFailure(cfg, b, key, now);
      && OthersKept(b, b', key)
      && (key in b.circuits && b.circuits[key].state != Closed ==>
            var c := b.circuits[key];
            && key in b'.circuits
            && b'.circuits[key] == c.(lastTouched := now, state := Open,
                 openedUntil := if c.state == HalfOpen then now + cfg.openMs else Max(c.openedUntil, now + cfg.openMs)))
      && (key in b'.circuits && (key !in b.circuits || b.circuits[key].state == Closed) ==> b'.circuits[key].state != HalfOpen)
  {
    hide FindOrCreate, FailFound;
    FindOrCreateEffect(cfg, b, key, now);
    var found := FindOrCreate(cfg, b, key, now);
    if found.Some? {
      FailFoundEffect(cfg, found.value, key, now);
    }
  }

  lemma AbandonEffect(b: Breaker, key: Key, probe: bool, now: int)
    ensures var b' := Abandon(b, key, probe, now);
      && OthersKept(b, b', key)
      && (key in b.circuits && b.circuits[key].state != Closed ==>
            var c := b.circuits[key];
            && key in b'.circuits
            && b'.circuits[key] == if probe && c.state == HalfOpen then c.(state := Open, openedUntil := now) else c)
      && (key in b'.circuits && (key !in b.circuits || b.circuits[key].state == Closed) ==> b'.circuits[key].state != HalfOpen)
  {
  }
}
