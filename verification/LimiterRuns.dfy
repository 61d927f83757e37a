/** Whole runs of both limiters under a clock that never goes back, and what
    happens when it does. */
module LimiterRuns {
  import opened Arithmetic
  import opened Text
  import opened FixedWindow

  /** A check, or the store dropping keys whose time to live has passed. */
  datatype Event = Check(now: int, key: Key, policy: Policy) | Drop(now: int, keys: set<Key>)

  predicate NonDecreasing(events: seq<Event>, clock: int) {
    events != [] ==> clock <= events[0].now && NonDecreasing(events[1..], events[0].now)
  }

  /** The store may drop an expired key at any moment, early never. */
  function DropExpired(r: Redis, keys: set<Key>, now: int): Redis {
    map k | k in r && !(k in keys && r[k].expiresAt <= now) :: r[k]
  }

  function MemoryRun(maxBuckets: nat, m: Memory, events: seq<Event>): seq<Result<Decision, LimitError>>
    decreases |events|
  {
    if events == [] then []
    else match events[0]
      case Check(now, key, p) =>
        var (m', r) := MemoryCheck(maxBuckets, m, key, p, now);
        [r] + MemoryRun(maxBuckets, m', events[1..])
      case Drop(_, _) => MemoryRun(maxBuckets, m, events[1..])
  }

  function RedisRun(r: Redis, events: seq<Event>): seq<Result<Decision, LimitError>>
    decreases |events|
  {
    if events == [] then []
    else match events[0]
      case Check(now, key, p) =>
        var (r', result) := RedisCheck(r, key, p, now);
        [result] + RedisRun(r', events[1..])
      case Drop(now, keys) => RedisRun(DropExpired(r, keys, now), events[1..])
  }

  /** Equal answers up to the first capacity error of the first list. */
  predicate SameUntilCapacity(a: seq<Result<Decision, LimitError>>, b: seq<Result<Decision, LimitError>>) {
    if a == [] || b == [] then a == [] && b == []
    else a[0] == Err(CapacityExhausted) || (a[0] == b[0] && SameUntilCapacity(a[1..], b[1..]))
  }

  lemma SameCons(a: Result<Decision, LimitError>, b: Result<Decision, LimitError>,
                 others: seq<Result<Decision, LimitError>>, others': seq<Result<Decision, LimitError>>)
    requires a == Err(CapacityExhausted) || (a == b && SameUntilCapacity(others, others'))
    ensures SameUntilCapacity([a] + others, [b] + others')
  {
    assert ([a] + others)[1..] == others && ([b] + others')[1..] == others';
  }

  /** Both stores hold the same governing windows. */
  ghost predicate Agree(maxBuckets: nat, m: Memory, r: Redis, now: int) {
    && MemorySound(maxBuckets, m, now)
    && RedisSound(r, now)
    && forall k :: LiveInMemory(m.buckets, k, now) == LiveInRedis(r, k, now)
  }

  lemma TimePasses(maxBuckets: nat, m: Memory, r: Redis, clock: int, now: int)
    requires Agree(maxBuckets, m, r, clock) && clock <= now
    ensures Agree(maxBuckets, m, r, now)
  {
    forall k ensures LiveInMemory(m.buckets, k, now) == LiveInRedis(r, k, now) {
      assert LiveInMemory(m.buckets, k, clock) == LiveInRedis(r, k, clock);
    }
  }

  lemma DroppingUnseen(r: Redis, keys: set<Key>, now: int)
    requires RedisSound(r, now)
    ensures RedisSound(DropExpired(r, keys, now), now)
    ensures forall k :: LiveInRedis(DropExpired(r, keys, now), k, now) == LiveInRedis(r, k, now)
  {
  }

  lemma CheckAgrees(maxBuckets: nat, m: Memory, r: Redis, key: Key, p: Policy, now: int)
    requires maxBuckets > 0 && now >= 0 && Agree(maxBuckets, m, r, now)
    ensures var (m', a) := MemoryCheck(maxBuckets, m, key, p, now);
      var (r', b) := RedisCheck(r, key, p, now);
      a != Err(CapacityExhausted) ==> a == b && Agree(maxBuckets, m', r', now)
  {
    if ValidPolicy(p) {
      MemoryDecides(maxBuckets, m, key, p, now);
      RedisDecides(r, key, p, now);
      var m', r' := MemoryCheck(maxBuckets, m, key, p, now).0, RedisCheck(r, key, p, now).0;
      if MemoryCheck(maxBuckets, m, key, p, now).1.Ok? {
        forall k ensures LiveInMemory(m'.buckets, k, now) == LiveInRedis(r', k, now) {
          assert LiveInMemory(m.buckets, k, now) == LiveInRedis(r, k, now);
          assert LiveInMemory(m.buckets, key, now) == LiveInRedis(r, key, now);
        }
      }
    }
  }

  lemma {:induction false} RunsAgree(maxBuckets: nat, m: Memory, r: Redis, events: seq<Event>, clock: int)
    requires maxBuckets > 0 && clock >= 0 && Agree(maxBuckets, m, r, clock) && NonDecreasing(events, clock)
    ensures SameUntilCapacity(MemoryRun(maxBuckets, m, events), RedisRun(r, events))
    decreases |events|
  {
    if events != [] {
      var now := events[0].now;
      TimePasses(maxBuckets, m, r, clock, now);
      match events[0]
      case Check(_, key, p) =>
        CheckAgrees(maxBuckets, m, r, key, p, now);
        var (m', a) := MemoryCheck(maxBuckets, m, key, p, now);
        var (r', b) := RedisCheck(r, key, p, now);
        if a != Err(CapacityExhausted) {
          RunsAgree(maxBuckets, m', r', events[1..], now);
        }
        SameCons(a, b, MemoryRun(maxBuckets, m', events[1..]), RedisRun(r', events[1..]));
      case Drop(_, keys) =>
        DroppingUnseen(r, keys, now);
        RunsAgree(maxBuckets, m, DropExpired(r, keys, now), events[1..], now);
    }
  }

  /** The two limiters give identical answers on every run, across policy
      changes, cleanups and whatever moments expired keys are dropped at, until
      the in-memory one runs out of capacity. */
  lemma LimitersIdentical(maxBuckets: nat, events: seq<Event>)
    requires maxBuckets > 0 && NonDecreasing(events, 0)
    ensures SameUntilCapacity(MemoryRun(maxBuckets, Memory(map[], 0), events), RedisRun(map[], events))
  {
    RunsAgree(maxBuckets, Memory(map[], 0), map[], events, 0);
  }

  // ----- when two stores answer alike, whatever the clock did -----

  /** The window the in-memory limiter counts a check in: its bucket's while the
      clock reads before the reset time, otherwise a fresh aligned one. */
  function InMemory(m: Memory, key: Key, p: Policy, now: int): Window
    requires ValidPolicy(p)
  {
    Current(LiveInMemory(m.buckets, key, now), p, now)
  }

  /** The window the script counts a check in: the stored one only if it is the
      aligned window the clock reads, otherwise a fresh aligned one. */
  function InStore(r: Redis, key: Key, p: Policy, now: int): Window
    requires ValidPolicy(p)
  {
    var start := AlignDown(now, p.windowMs);
    if key in r && r[key].start == start && r[key].limit == p.requests && r[key].window == p.windowMs
    then Window(start, p.requests, p.windowMs, r[key].count)
    else Window(start, p.requests, p.windowMs, 0)
  }

  /** What a check counted in a window is answered. */
  function Answer(w: Window, now: int): Decision {
    var resetAt := w.start + w.windowMs;
    Decision(w.count < w.limit, w.limit, if w.count < w.limit then w.limit - w.count - 1 else 0, resetAt,
             Max(1, CeilSeconds(resetAt - now)))
  }

  lemma MemoryAnswers(maxBuckets: nat, m: Memory, key: Key, p: Policy, now: int)
    requires ValidPolicy(p) && now >= 0 && MemoryCheck(maxBuckets, m, key, p, now).1 != Err(CapacityExhausted)
    ensures MemoryCheck(maxBuckets, m, key, p, now).1 == Ok(Answer(InMemory(m, key, p, now), now))
  {
    hide RemoveExpired, CountIn, Current, AlignDown, LiveInMemory, AsWindow, CeilSeconds;
    var m1 := Cleaned(m, now);
    CleaningUnseen(m.buckets, now);
    BucketIsCurrent(m1.buckets, key, p, now);
    var stale := key !in m1.buckets || now >= m1.buckets[key].resetAt
      || m1.buckets[key].limit != p.requests || m1.buckets[key].windowMs != p.windowMs;
    var bucket := if stale then Bucket(0, p.requests, p.windowMs, AlignDown(now, p.windowMs) + p.windowMs) else m1.buckets[key];
    CountInDecides(bucket, LiveInMemory(m.buckets, key, now), p, now);
  }

  lemma StoreAnswers(r: Redis, key: Key, p: Policy, now: int)
    requires ValidPolicy(p) && now >= 0 && InStore(r, key, p, now).count <= p.requests
    ensures RedisCheck(r, key, p, now).1 == Ok(Answer(InStore(r, key, p, now), now))
  {
    hide CeilSeconds, AlignDown;
    StartByRemainder(now, p.windowMs);
  }

  lemma AnswersTellWindows(a: Window, b: Window, now: int)
    requires a.limit == b.limit && a.windowMs == b.windowMs && a.count <= a.limit && b.count <= b.limit
    ensures Answer(a, now) == Answer(b, now) <==> a == b
  {
  }

  /** Any two sound stores, whether or not they agree and whatever time the clock
      reads, answer a check alike exactly when the in-memory limiter has room for
      the key and both would count in the same window. Where the clock has stepped
      back, this is the exact condition for that to go unnoticed, for keys with a
      live window, an expired one or none, and across changes of policy. */
  lemma ClockRegressionIff(maxBuckets: nat, m: Memory, r: Redis, key: Key, p: Policy, clock: int, now: int)
    requires MemorySound(maxBuckets, m, clock) && RedisSound(r, clock) && ValidPolicy(p) && now >= 0
    ensures MemoryCheck(maxBuckets, m, key, p, now).1 == RedisCheck(r, key, p, now).1 <==>
      |LiveOthers(m.buckets, key, now)| < maxBuckets && InMemory(m, key, p, now) == InStore(r, key, p, now)
  {
    hide MemoryCheck, RedisCheck, LiveOthers, AlignDown, Answer;
    CapacityIff(maxBuckets, m, key, p, now);
    StoreAnswers(r, key, p, now);
    if |LiveOthers(m.buckets, key, now)| < maxBuckets {
      MemoryAnswers(maxBuckets, m, key, p, now);
      AnswersTellWindows(InMemory(m, key, p, now), InStore(r, key, p, now), now);
    }
  }

  // ----- runs in which the clock steps back -----

  /** While its window governs, a key's bucket outlives every cleanup, and the
      check goes on counting in it however early the clock reads. */
  lemma MemoryKeepsWindow(maxBuckets: nat, m: Memory, key: Key, p: Policy, now: int)
    requires ValidPolicy(p) && now >= 0 && key in m.buckets && now < m.buckets[key].resetAt
    requires m.buckets[key].limit == p.requests && m.buckets[key].windowMs == p.windowMs
    ensures var (m', a) := MemoryCheck(maxBuckets, m, key, p, now);
      && a == Ok(CountIn(m.buckets[key], now).1)
      && key in m'.buckets && m'.buckets[key] == CountIn(m.buckets[key], now).0
  {
    hide CountIn;
  }

  /** The script opens the window its clock reads, whatever is stored. */
  lemma RedisOpensEarlier(r: Redis, key: Key, p: Policy, now: int)
    requires ValidPolicy(p) && now >= 0 && (key in r ==> r[key].start != AlignDown(now, p.windowMs))
    ensures var (r', b) := RedisCheck(r, key, p, now);
      && b.Ok? && b.value.allowed && b.value.resetAt == AlignDown(now, p.windowMs) + p.windowMs
      && key in r' && r'[key].start == AlignDown(now, p.windowMs) && r'[key].count == 1
  {
    hide CeilSeconds;
    StartByRemainder(now, p.windowMs);
  }

  /** Two stores that agree keep agreeing about a key checked at an earlier time
      exactly when that time is still inside the key's live window. Before it, one
      limiter keeps the later window and the other opens the earlier one: the
      stores then hold different windows, their answers name different reset
      times, and their verdicts differ exactly when the live window is used up. */
  lemma LiveWindowRegressionIff(maxBuckets: nat, m: Memory, r: Redis, key: Key, p: Policy, clock: int, now: int)
    requires maxBuckets > 0 && Agree(maxBuckets, m, r, clock) && ValidPolicy(p) && 0 <= now <= clock
    requires LiveInMemory(m.buckets, key, clock).Some?
    requires m.buckets[key].limit == p.requests && m.buckets[key].windowMs == p.windowMs
    ensures var w := LiveInMemory(m.buckets, key, clock).value;
      var (m', a) := MemoryCheck(maxBuckets, m, key, p, now);
      var (r', b) := RedisCheck(r, key, p, now);
      && a.Ok? && b.Ok? && key in m'.buckets && key in r'
      && (a == b <==> w.start <= now)
      && (AsWindow(m'.buckets[key]).start == r'[key].start <==> w.start <= now)
      && (now < w.start ==>
            && b.value.resetAt < a.value.resetAt
            && (a.value.allowed != b.value.allowed <==> w.count == w.limit))
  {
    hide CeilSeconds, MemoryCheck, RedisCheck;
    assert LiveInMemory(m.buckets, key, clock) == LiveInRedis(r, key, clock);
    var w := LiveInMemory(m.buckets, key, clock).value;
    MemoryKeepsWindow(maxBuckets, m, key, p, now);
    AlignedDown(now, p.windowMs);
    if w.start <= now {
      RedisKeepsWindow(r, key, p, now);
    } else {
      RedisOpensEarlier(r, key, p, now);
    }
  }

  /** The script goes on counting in the window its clock reads. */
  lemma RedisKeepsWindow(r: Redis, key: Key, p: Policy, now: int)
    requires ValidPolicy(p) && now >= 0 && key in r && r[key].limit == p.requests && r[key].window == p.windowMs
    requires r[key].start % p.windowMs == 0 && r[key].start <= now < r[key].start + p.windowMs
    requires 0 <= r[key].count <= p.requests
    ensures var (r', b) := RedisCheck(r, key, p, now);
      var h := r[key];
      && b == Ok(CountIn(Bucket(h.count, h.limit, h.window, h.start + h.window), now).1)
      && key in r' && r'[key].start == h.start
  {
    hide CeilSeconds, AlignDown;
    StartByRemainder(now, p.windowMs);
    AlignDownUnique(r[key].start, now, p.windowMs);
  }

  /** So the monotone clock is needed: under every policy and for every key, two
      checks from the start tell the limiters apart if the second reads the clock
      before the window of the first. */
  lemma ClockRegressionDiffers(maxBuckets: nat, key: Key, p: Policy, later: int, earlier: int)
    requires maxBuckets > 0 && ValidPolicy(p) && 0 <= earlier < AlignDown(later, p.windowMs)
    ensures var events := [Check(later, key, p)] + [Check(earlier, key, p)];
      !SameUntilCapacity(MemoryRun(maxBuckets, Memory(map[], 0), events), RedisRun(map[], events))
  {
    hide MemoryCheck, RedisCheck, AlignDown;
    AlignedDown(later, p.windowMs);
    CheckAgrees(maxBuckets, Memory(map[], 0), map[], key, p, later);
    FirstCheckLives(maxBuckets, key, p, later);
    var (m, a) := MemoryCheck(maxBuckets, Memory(map[], 0), key, p, later);
    var (r, b) := RedisCheck(map[], key, p, later);
    LiveWindowRegressionIff(maxBuckets, m, r, key, p, later, earlier);
    TwoChecks(maxBuckets, key, p, later, earlier);
  }

  lemma FirstCheckLives(maxBuckets: nat, key: Key, p: Policy, now: int)
    requires maxBuckets > 0 && ValidPolicy(p) && now >= 0
    ensures var (m, a) := MemoryCheck(maxBuckets, Memory(map[], 0), key, p, now);
      && a.Ok? && LiveInMemory(m.buckets, key, now).Some?
      && LiveInMemory(m.buckets, key, now).value.start == AlignDown(now, p.windowMs)
      && m.buckets[key].limit == p.requests && m.buckets[key].windowMs == p.windowMs
  {
    hide AlignDown;
    AlignedDown(now, p.windowMs);
    assert RemoveExpired(map[], now) == map[];
  }

  lemma TwoChecks(maxBuckets: nat, key: Key, p: Policy, first: int, second: int)
    ensures var events := [Check(first, key, p)] + [Check(second, key, p)];
      var (m, a) := MemoryCheck(maxBuckets, Memory(map[], 0), key, p, first);
      var (r, b) := RedisCheck(map[], key, p, first);
      && MemoryRun(maxBuckets, Memory(map[], 0), events) == [a] + [MemoryCheck(maxBuckets, m, key, p, second).1]
      && RedisRun(map[], events) == [b] + [RedisCheck(r, key, p, second).1]
  {
    hide MemoryCheck, RedisCheck;
    var last := Check(second, key, p);
    assert ([Check(first, key, p)] + [last])[1..] == [last] && [last][1..] == [];
    var m, r := MemoryCheck(maxBuckets, Memory(map[], 0), key, p, first).0, RedisCheck(map[], key, p, first).0;
    assert MemoryRun(maxBuckets, m, [last]) == [MemoryCheck(maxBuckets, m, key, p, second).1] + [];
    assert RedisRun(r, [last]) == [RedisCheck(r, key, p, second).1] + [];
  }

  lemma FirstCheckStored(maxBuckets: nat, key: Key, p: Policy, now: int)
    requires maxBuckets > 0 && ValidPolicy(p) && now >= 0
    ensures var start := AlignDown(now, p.windowMs);
      && MemoryCheck(maxBuckets, Memory(map[], 0), key, p, now).0
           == Memory(map[key := Bucket(1, p.requests, p.windowMs, start + p.windowMs)], now + CLEANUP_INTERVAL_MS)
      && RedisCheck(map[], key, p, now).0 == map[key := Hash(start, 1, p.requests, p.windowMs, start + p.windowMs)]
      && MemoryCheck(maxBuckets, Memory(map[], 0), key, p, now).1.Ok?
  {
    hide AlignDown, CeilSeconds;
    AlignedDown(now, p.windowMs);
    StartByRemainder(now, p.windowMs);
    assert RemoveExpired(map[], now) == map[];
  }

  /** One event in front of a run of both. */
  lemma RunsCons(maxBuckets: nat, m: Memory, r: Redis, e: Event, rest: seq<Event>)
    ensures e.Check? ==>
      var (m', a) := MemoryCheck(maxBuckets, m, e.key, e.policy, e.now);
      var (r', b) := RedisCheck(r, e.key, e.policy, e.now);
      && MemoryRun(maxBuckets, m, [e] + rest) == [a] + MemoryRun(maxBuckets, m', rest)
      && RedisRun(r, [e] + rest) == [b] + RedisRun(r', rest)
    ensures e.Drop? ==>
      && MemoryRun(maxBuckets, m, [e] + rest) == MemoryRun(maxBuckets, m, rest)
      && RedisRun(r, [e] + rest) == RedisRun(DropExpired(r, e.keys, e.now), rest)
  {
    hide MemoryCheck, RedisCheck, DropExpired;
    assert ([e] + rest)[1..] == rest;
  }

  lemma DifferNow(a: Result<Decision, LimitError>, b: Result<Decision, LimitError>,
                  others: seq<Result<Decision, LimitError>>, others': seq<Result<Decision, LimitError>>)
    requires a != b && a != Err(CapacityExhausted)
    ensures !SameUntilCapacity([a] + others, [b] + others')
  {
  }

  lemma DifferLater(a: Result<Decision, LimitError>, b: Result<Decision, LimitError>,
                    others: seq<Result<Decision, LimitError>>, others': seq<Result<Decision, LimitError>>)
    requires a == b && a != Err(CapacityExhausted) && !SameUntilCapacity(others, others')
    ensures !SameUntilCapacity([a] + others, [b] + others')
  {
    assert ([a] + others)[1..] == others && ([b] + others')[1..] == others';
  }

  lemma NothingStored(r: Redis, key: Key, now: int)
    requires r.Keys == {key} && r[key].expiresAt <= now
    ensures DropExpired(r, {key}, now) == map[]
  {
  }

  /** One bucket still counted in, and an empty store. */
  lemma OnlyInMemory(maxBuckets: nat, m: Memory, key: Key, p: Policy, clock: int, now: int)
    requires maxBuckets > 0 && MemorySound(maxBuckets, m, clock) && ValidPolicy(p) && now >= 0
    requires m.buckets.Keys == {key} && now < m.buckets[key].resetAt && m.buckets[key].count == 1
    requires m.buckets[key].limit == p.requests && m.buckets[key].windowMs == p.windowMs
    ensures MemoryCheck(maxBuckets, m, key, p, now).1 != RedisCheck(map[], key, p, now).1
    ensures MemoryCheck(maxBuckets, m, key, p, now).1 != Err(CapacityExhausted)
  {
    hide MemoryCheck, RedisCheck, AlignDown;
    assert LiveOthers(m.buckets, key, now) == {};
    ClockRegressionIff(maxBuckets, m, map[], key, p, clock, now);
    CapacityIff(maxBuckets, m, key, p, now);
  }

  /** A window counted in only by the store. */
  lemma OnlyInStore(maxBuckets: nat, m: Memory, r: Redis, key: Key, other: Key, p: Policy, clock: int, now: int)
    requires maxBuckets > 1 && MemorySound(maxBuckets, m, clock) && RedisSound(r, clock) && ValidPolicy(p) && now >= 0
    requires m.buckets.Keys == {other} && key != other && key in r && r[key].count == 1
    requires r[key].start == AlignDown(now, p.windowMs) && r[key].limit == p.requests && r[key].window == p.windowMs
    ensures MemoryCheck(maxBuckets, m, key, p, now).1 != RedisCheck(r, key, p, now).1
    ensures MemoryCheck(maxBuckets, m, key, p, now).1 != Err(CapacityExhausted)
  {
    hide MemoryCheck, RedisCheck, AlignDown;
    CardinalityAtMost(LiveOthers(m.buckets, key, now), {other});
    ClockRegressionIff(maxBuckets, m, r, key, p, clock, now);
    CapacityIff(maxBuckets, m, key, p, now);
  }

  /** No window need be live for a step back to show. A key is checked, its window
      passes and the store drops the hash; a check back inside the window finds the
      bucket still in memory and nothing stored. */
  lemma DroppedWindowDiffers(maxBuckets: nat, key: Key, p: Policy, first: int, late: int, second: int)
    requires maxBuckets > 0 && ValidPolicy(p) && first >= 0 && second >= 0
    requires AlignDown(first, p.windowMs) == AlignDown(second, p.windowMs)
    requires AlignDown(first, p.windowMs) + p.windowMs <= late
    ensures var events := [Check(first, key, p)] + ([Drop(late, {key})] + ([Check(second, key, p)] + []));
      !SameUntilCapacity(MemoryRun(maxBuckets, Memory(map[], 0), events), RedisRun(map[], events))
  {
    hide MemoryCheck, RedisCheck, AlignDown, DropExpired, SameUntilCapacity, MemoryRun, RedisRun;
    AlignedDown(first, p.windowMs);
    AlignedDown(second, p.windowMs);
    FirstCheckStored(maxBuckets, key, p, first);
    CheckAgrees(maxBuckets, Memory(map[], 0), map[], key, p, first);
    var (m, a) := MemoryCheck(maxBuckets, Memory(map[], 0), key, p, first);
    var (r, b) := RedisCheck(map[], key, p, first);
    NothingStored(r, key, late);
    OnlyInMemory(maxBuckets, m, key, p, first, second);
    var drop, again := Drop(late, {key}), Check(second, key, p);
    var rest := [drop] + ([again] + []);
    RunsCons(maxBuckets, Memory(map[], 0), map[], Check(first, key, p), rest);
    RunsCons(maxBuckets, m, r, drop, [again] + []);
    RunsCons(maxBuckets, m, map[], again, []);
    var (m', c) := MemoryCheck(maxBuckets, m, key, p, second);
    var (r', d) := RedisCheck(map[], key, p, second);
    DifferNow(c, d, MemoryRun(maxBuckets, m', []), RedisRun(r', []));
    DifferLater(a, b, MemoryRun(maxBuckets, m, rest), RedisRun(r, rest));
  }

  /** The other way round: a later check of another key makes the in-memory limiter
      clean up, while the store has not dropped the hash yet; a check of the first
      key back inside its window finds it stored and not in memory. */
  lemma CleanedWindowDiffers(maxBuckets: nat, key: Key, other: Key, p: Policy, first: int, late: int, second: int)
    requires maxBuckets > 1 && ValidPolicy(p) && first >= 0 && second >= 0 && key != other
    requires AlignDown(first, p.windowMs) == AlignDown(second, p.windowMs)
    requires AlignDown(first, p.windowMs) + p.windowMs <= late && first + CLEANUP_INTERVAL_MS <= late
    ensures var events := [Check(first, key, p)] + ([Check(late, other, p)] + ([Check(second, key, p)] + []));
      !SameUntilCapacity(MemoryRun(maxBuckets, Memory(map[], 0), events), RedisRun(map[], events))
  {
    hide MemoryCheck, RedisCheck, AlignDown, SameUntilCapacity, MemoryRun, RedisRun;
    AlignedDown(first, p.windowMs);
    FirstCheckStored(maxBuckets, key, p, first);
    CheckAgrees(maxBuckets, Memory(map[], 0), map[], key, p, first);
    var (m, a) := MemoryCheck(maxBuckets, Memory(map[], 0), key, p, first);
    var (r, b) := RedisCheck(map[], key, p, first);
    TimePasses(maxBuckets, m, r, first, late);
    AfterCleaning(maxBuckets, m, r, key, other, p, late);
    CheckAgrees(maxBuckets, m, r, other, p, late);
    var (m1, a1) := MemoryCheck(maxBuckets, m, other, p, late);
    var (r1, b1) := RedisCheck(r, other, p, late);
    OnlyInStore(maxBuckets, m1, r1, key, other, p, late, second);
    var next, again := Check(late, other, p), Check(second, key, p);
    var rest := [next] + ([again] + []);
    RunsCons(maxBuckets, Memory(map[], 0), map[], Check(first, key, p), rest);
    RunsCons(maxBuckets, m, r, next, [again] + []);
    RunsCons(maxBuckets, m1, r1, again, []);
    var (m2, c) := MemoryCheck(maxBuckets, m1, key, p, second);
    var (r2, d) := RedisCheck(r1, key, p, second);
    DifferNow(c, d, MemoryRun(maxBuckets, m2, []), RedisRun(r2, []));
    DifferLater(a1, b1, MemoryRun(maxBuckets, m1, [again] + []), RedisRun(r1, [again] + []));
    DifferLater(a, b, MemoryRun(maxBuckets, m, rest), RedisRun(r, rest));
  }

  lemma AfterCleaning(maxBuckets: nat, m: Memory, r: Redis, key: Key, other: Key, p: Policy, late: int)
    requires maxBuckets > 1 && ValidPolicy(p) && late >= 0 && key != other
    requires m.buckets.Keys == {key} && m.buckets[key].resetAt <= late && m.nextCleanupAt <= late
    ensures MemoryCheck(maxBuckets, m, other, p, late).1.Ok?
    ensures MemoryCheck(maxBuckets, m, other, p, late).0.buckets.Keys == {other}
    ensures key in r ==> key in RedisCheck(r, other, p, late).0 && RedisCheck(r, other, p, late).0[key] == r[key]
  {
    hide CountIn, AlignDown, CeilSeconds;
    assert RemoveExpired(m.buckets, late) == map[];
  }
}
