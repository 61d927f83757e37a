/** The bounds a fixed window gives over whole runs: first of one key's answers
    under one policy, then of both limiters. */
module WindowBounds {
  import opened Arithmetic
  import opened Text
  import opened FixedWindow
  import opened LimiterRuns

  // ----- one key under one policy -----

  /** The answers a key gets at the given times, from its live window on. */
  function Answers(live: Option<Window>, p: Policy, times: seq<int>): seq<bool>
    requires ValidPolicy(p)
    decreases |times|
  {
    if times == [] then []
    else
      var (w, d) := Decide(LiveAt(live, times[0]), p, times[0]);
      [d.allowed] + Answers(Some(w), p, times[1..])
  }

  function LiveAt(live: Option<Window>, now: int): Option<Window> {
    if live.Some? && Governs(live.value, now) then live else None
  }

  predicate Sorted(times: seq<int>, clock: int) {
    times != [] ==> clock <= times[0] && Sorted(times[1..], times[0])
  }

  /** The times of one key's checks in a run. */
  function TimesOf(events: seq<Event>, key: Key): seq<int> {
    if events == [] then []
    else (if events[0].Check? && events[0].key == key then [events[0].now] else []) + TimesOf(events[1..], key)
  }

  /** What the stored limiter answered one key in a run. */
  function AllowedOf(r: Redis, events: seq<Event>, key: Key): seq<bool>
    decreases |events|
  {
    if events == [] then []
    else match events[0]
      case Check(now, k, p) =>
        var (r', result) := RedisCheck(r, k, p, now);
        (if k == key then [result.Ok? && result.value.allowed] else []) + AllowedOf(r', events[1..], key)
      case Drop(now, keys) => AllowedOf(DropExpired(r, keys, now), events[1..], key)
  }

  ghost predicate OnlyPolicy(events: seq<Event>, key: Key, p: Policy) {
    forall i :: 0 <= i < |events| && events[i].Check? && events[i].key == key ==> events[i].policy == p
  }

  /** Keys do not interfere: what a key is answered depends on the times of its
      own checks alone. */
  lemma {:induction false} KeysAreIndependent(r: Redis, events: seq<Event>, key: Key, p: Policy, live: Option<Window>, clock: int)
    requires ValidPolicy(p) && clock >= 0 && RedisSound(r, clock) && NonDecreasing(events, clock)
    requires OnlyPolicy(events, key, p)
    requires LiveAt(live, clock) == LiveInRedis(r, key, clock)
    ensures AllowedOf(r, events, key) == Answers(live, p, TimesOf(events, key))
    ensures Sorted(TimesOf(events, key), clock)
    decreases |events|, 1
  {
    if events != [] {
      LiveLater(r, key, live, clock, events[0].now);
      if events[0].Drop? {
        var keys, now := events[0].keys, events[0].now;
        DroppingUnseen(r, keys, now);
        KeysAreIndependent(DropExpired(r, keys, now), events[1..], key, p, live, now);
        SortedLater(TimesOf(events[1..], key), clock, now);
        assert TimesOf(events, key) == [] + TimesOf(events[1..], key) == TimesOf(events[1..], key);
      } else if events[0].key == key {
        OwnCheck(r, events, key, p, live);
      } else {
        var now := events[0].now;
        CheckOthers(r, events[0].key, events[0].policy, now);
        var r' := RedisCheck(r, events[0].key, events[0].policy, now).0;
        KeysAreIndependent(r', events[1..], key, p, live, now);
        SortedLater(TimesOf(events[1..], key), clock, now);
        assert AllowedOf(r, events, key) == [] + AllowedOf(r', events[1..], key) == AllowedOf(r', events[1..], key);
        assert TimesOf(events, key) == [] + TimesOf(events[1..], key) == TimesOf(events[1..], key);
      }
    }
  }

  lemma {:induction false} OwnCheck(r: Redis, events: seq<Event>, key: Key, p: Policy, live: Option<Window>)
    requires events != [] && events[0].Check? && events[0].key == key && events[0].policy == p
    requires ValidPolicy(p) && events[0].now >= 0 && RedisSound(r, events[0].now) && NonDecreasing(events, events[0].now)
    requires OnlyPolicy(events, key, p) && LiveAt(live, events[0].now) == LiveInRedis(r, key, events[0].now)
    ensures AllowedOf(r, events, key) == Answers(live, p, TimesOf(events, key))
    ensures Sorted(TimesOf(events, key), events[0].now)
    decreases |events|, 0
  {
    var now, rest := events[0].now, events[1..];
    var (w, d) := Decide(LiveAt(live, now), p, now);
    RedisDecides(r, key, p, now);
    DecideSound(LiveAt(live, now), p, now);
    KeysAreIndependent(RedisCheck(r, key, p, now).0, rest, key, p, Some(w), now);
    ConsTimes(live, p, now, TimesOf(rest, key));
  }

  /** A check of one key, valid or not, leaves what every other key has live. */
  lemma CheckOthers(r: Redis, key: Key, p: Policy, now: int)
    requires RedisSound(r, now) && now >= 0
    ensures RedisSound(RedisCheck(r, key, p, now).0, now)
    ensures forall k :: k != key ==> LiveInRedis(RedisCheck(r, key, p, now).0, k, now) == LiveInRedis(r, k, now)
  {
    if ValidPolicy(p) {
      RedisDecides(r, key, p, now);
    }
  }

  lemma ConsTimes(live: Option<Window>, p: Policy, now: int, times: seq<int>)
    requires ValidPolicy(p)
    ensures var (w, d) := Decide(LiveAt(live, now), p, now);
      Answers(live, p, [now] + times) == [d.allowed] + Answers(Some(w), p, times)
    ensures Sorted([now] + times, now) <==> Sorted(times, now)
  {
    assert ([now] + times)[1..] == times;
  }

  lemma LiveLater(r: Redis, key: Key, live: Option<Window>, clock: int, now: int)
    requires RedisSound(r, clock) && clock <= now && LiveAt(live, clock) == LiveInRedis(r, key, clock)
    ensures RedisSound(r, now) && LiveAt(live, now) == LiveInRedis(r, key, now)
  {
    assert LiveAt(live, now) == LiveAt(LiveAt(live, clock), now);
  }

  lemma SortedLater(times: seq<int>, clock: int, now: int)
    requires clock <= now && Sorted(times, now)
    ensures Sorted(times, clock)
  {
  }

  /** Allowed answers among the times in [from, to). */
  function AllowedIn(times: seq<int>, answers: seq<bool>, from: int, upto: int): nat
    requires |times| == |answers|
  {
    if times == [] then 0
    else (if answers[0] && from <= times[0] < upto then 1 else 0) + AllowedIn(times[1..], answers[1..], from, upto)
  }

  function ChecksIn(times: seq<int>, from: int, upto: int): nat {
    if times == [] then 0
    else (if from <= times[0] < upto then 1 else 0) + ChecksIn(times[1..], from, upto)
  }

  lemma {:induction false} AnswersLength(live: Option<Window>, p: Policy, times: seq<int>)
    requires ValidPolicy(p)
    ensures |Answers(live, p, times)| == |times|
    decreases |times|
  {
    if times != [] {
      AnswersLength(Some(Decide(LiveAt(live, times[0]), p, times[0]).0), p, times[1..]);
    }
  }

  /** The count already used of the aligned window starting at `start`. */
  function Used(live: Option<Window>, start: int): int {
    if live.Some? && live.value.start == start then live.value.count else 0
  }

  predicate Follows(live: Option<Window>, p: Policy, clock: int) {
    live.Some? ==> Sound(live.value, clock) && live.value.limit == p.requests && live.value.windowMs == p.windowMs
  }

  lemma {:induction false} NothingBefore(times: seq<int>, answers: seq<bool>, clock: int, from: int, upto: int)
    requires |times| == |answers| && Sorted(times, clock) && upto <= clock
    ensures AllowedIn(times, answers, from, upto) == 0 && ChecksIn(times, from, upto) == 0
  {
    if times != [] {
      NothingBefore(times[1..], answers[1..], times[0], from, upto);
    }
  }

  /** n checks in one aligned window yield exactly min(n, limit) allowed ones,
      counting what the window has already used. */
  lemma {:induction false} WindowExact(live: Option<Window>, p: Policy, times: seq<int>, clock: int, start: int)
    requires ValidPolicy(p) && clock >= 0 && Sorted(times, clock) && Follows(live, p, clock)
    requires start % p.windowMs == 0 && |Answers(live, p, times)| == |times|
    requires clock < start + p.windowMs
    ensures AllowedIn(times, Answers(live, p, times), start, start + p.windowMs)
         == Min(p.requests - Used(live, start), ChecksIn(times, start, start + p.windowMs))
    decreases |times|
  {
    if times != [] {
      var now, rest := times[0], times[1..];
      var live' := LiveAt(live, now);
      var (w, d) := Decide(live', p, now);
      DecideSound(live', p, now);
      AnswersLength(Some(w), p, rest);
      assert Answers(live, p, times)[1..] == Answers(Some(w), p, rest);
      if start <= now < start + p.windowMs {
        AlignDownUnique(start, now, p.windowMs);
        LiveWindowStart(live, p, clock, now);
        WindowExact(Some(w), p, rest, now, start);
      } else if now < start {
        WindowExact(Some(w), p, rest, now, start);
        LiveBehind(live, clock, start);
      } else {
        NothingBefore(rest, Answers(Some(w), p, rest), now, start, start + p.windowMs);
      }
    }
  }

  lemma LiveBehind(live: Option<Window>, clock: int, start: int)
    requires live.Some? ==> Sound(live.value, clock)
    ensures clock < start ==> Used(live, start) == 0
  {
  }

  /** A window that still governs is the aligned window of the moment. */
  lemma LiveWindowStart(live: Option<Window>, p: Policy, clock: int, now: int)
    requires ValidPolicy(p) && Follows(live, p, clock) && clock <= now
    ensures var start := AlignDown(now, p.windowMs);
      Used(LiveAt(live, now), start) == Used(live, start) && (LiveAt(live, now).Some? ==> live.value.start == start)
  {
    AlignedDown(now, p.windowMs);
    if LiveAt(live, now).Some? {
      AlignDownUnique(live.value.start, now, p.windowMs);
    }
  }

  /** The answers to checks in time order, from nothing live. */
  lemma WindowGrants(p: Policy, times: seq<int>, start: nat)
    requires ValidPolicy(p) && Sorted(times, 0) && start % p.windowMs == 0
    ensures var answers := Answers(None, p, times);
      && |times| == |answers|
      && AllowedIn(times, answers, start, start + p.windowMs)
           == Min(p.requests, ChecksIn(times, start, start + p.windowMs))
  {
    AnswersLength(None, p, times);
    WindowExact(None, p, times, 0, start);
  }

  /** What an answer says remains is exactly what remains: of later checks in the
      same window, as many are allowed as the answer said, or all if there are fewer. */
  lemma RemainingIsExact(live: Option<Window>, p: Policy, now: int, times: seq<int>)
    requires ValidPolicy(p) && now >= 0 && (live.Some? ==> Sound(live.value, now) && Governs(live.value, now))
    requires Sorted(times, now) && forall i :: 0 <= i < |times| ==> times[i] < Decide(live, p, now).1.resetAt
    ensures var (w, d) := Decide(live, p, now);
      var answers := Answers(Some(w), p, times);
      && |answers| == |times|
      && AllowedIn(times, answers, w.start, d.resetAt) == Min(d.remaining, |times|)
  {
    hide AlignDown, CeilSeconds;
    var (w, d) := Decide(live, p, now);
    DecideSound(live, p, now);
    CurrentSound(live, p, now);
    AnswersLength(Some(w), p, times);
    WindowExact(Some(w), p, times, now, w.start);
    AllWithin(times, now, w.start, d.resetAt);
  }

  lemma {:induction false} AllWithin(times: seq<int>, clock: int, start: int, end: int)
    requires Sorted(times, clock) && start <= clock && forall i :: 0 <= i < |times| ==> times[i] < end
    ensures ChecksIn(times, start, end) == |times|
  {
    if times != [] {
      AllWithin(times[1..], times[0], start, end);
    }
  }

  // ----- any interval -----

  lemma {:induction false} AllowedSplits(times: seq<int>, answers: seq<bool>, from: int, mid: int, upto: int)
    requires |times| == |answers| && from <= mid <= upto
    ensures AllowedIn(times, answers, from, upto) == AllowedIn(times, answers, from, mid) + AllowedIn(times, answers, mid, upto)
  {
    if times != [] {
      AllowedSplits(times[1..], answers[1..], from, mid, upto);
    }
  }

  /** How many windows of length w are needed to cover a length d. */
  function Covering(d: int, w: int): (n: nat)
    requires w > 0
    decreases if d > 0 then d else 0
  {
    if d <= 0 then 0 else 1 + Covering(d - w, w)
  }

  lemma {:induction false} CoveringIsCeiling(d: nat, w: int)
    requires w > 0
    ensures Covering(d, w) == (d + w - 1) / w
    decreases d
  {
    if d == 0 {
      DivideBetween(w - 1, 0, w);
    } else if d <= w {
      DivideBetween(d + w - 1, 1, w);
      assert Covering(d - w, w) == 0;
    } else {
      CoveringIsCeiling(d - w, w);
      OneMoreWindow(d - 1, w);
    }
  }

  lemma OneMoreWindow(x: nat, w: int)
    requires w > 0
    ensures (x + w) / w == x / w + 1
  {
    var q := x / w;
    assert x == q * w + x % w;
    assert (q + 1) * w == q * w + w;
    DivideBetween(x + w, q + 1, w);
  }

  lemma {:induction false} CoveringMonotone(a: int, b: int, w: int)
    requires w > 0 && a <= b
    ensures Covering(a, w) <= Covering(b, w)
    decreases if b > 0 then b else 0
  {
    if a > 0 {
      CoveringMonotone(a - w, b - w, w);
    }
  }

  /** No aligned window lets more than the limit through. */
  ghost predicate Limited(times: seq<int>, answers: seq<bool>, p: Policy)
    requires ValidPolicy(p) && |times| == |answers|
  {
    forall start: int :: start >= 0 && start % p.windowMs == 0 ==>
      AllowedIn(times, answers, start, start + p.windowMs) <= p.requests
  }

  /** A limit's worth for each covering window. */
  function Budget(limit: int, d: int, w: int): int
    requires w > 0
    decreases if d > 0 then d else 0
  {
    if d <= 0 then 0 else limit + Budget(limit, d - w, w)
  }

  lemma {:induction false} BudgetIsProduct(limit: int, d: int, w: int)
    requires w > 0
    ensures Budget(limit, d, w) == limit * Covering(d, w)
    decreases if d > 0 then d else 0
  {
    if d > 0 {
      BudgetIsProduct(limit, d - w, w);
      var n := Covering(d - w, w);
      assert limit * (1 + n) == limit + limit * n;
    }
  }

  lemma {:induction false} FromAligned(times: seq<int>, answers: seq<bool>, p: Policy, start: int, upto: int)
    requires ValidPolicy(p) && |times| == |answers| && Limited(times, answers, p)
    requires start >= 0 && start % p.windowMs == 0 && start <= upto
    ensures AllowedIn(times, answers, start, upto) <= Budget(p.requests, upto - start, p.windowMs)
    decreases upto - start
  {
    var w := p.windowMs;
    var end := start + w;
    assert AllowedIn(times, answers, start, end) <= p.requests;
    if start == upto {
      NothingInEmpty(times, answers, start);
    } else if upto <= end {
      AllowedSplits(times, answers, start, upto, end);
    } else {
      NextMultiple(start, w);
      FromAligned(times, answers, p, end, upto);
      AllowedSplits(times, answers, start, end, upto);
    }
  }

  lemma {:induction false} NothingInEmpty(times: seq<int>, answers: seq<bool>, at: int)
    requires |times| == |answers|
    ensures AllowedIn(times, answers, at, at) == 0
  {
    if times != [] {
      NothingInEmpty(times[1..], answers[1..], at);
    }
  }

  lemma WithinWindow(times: seq<int>, answers: seq<bool>, start: int, from: int, upto: int, end: int)
    requires |times| == |answers| && start <= from <= upto <= end
    ensures AllowedIn(times, answers, from, upto) <= AllowedIn(times, answers, start, end)
  {
    AllowedSplits(times, answers, start, from, end);
    AllowedSplits(times, answers, from, upto, end);
  }

  lemma AtLeastOne(limit: int, n: nat)
    requires limit > 0
    ensures limit <= limit * (n + 1)
  {
  }

  lemma MoreWindows(limit: int, n: nat, m: nat)
    requires limit > 0 && n <= m
    ensures limit + limit * n <= limit * (m + 1)
  {
  }

  lemma IntervalGrants(p: Policy, times: seq<int>, from: nat, d: nat)
    requires ValidPolicy(p) && Sorted(times, 0)
    ensures var answers := Answers(None, p, times);
      && |times| == |answers|
      && AllowedIn(times, answers, from, from + d) <= p.requests * ((d + p.windowMs - 1) / p.windowMs + 1)
  {
    hide AllowedIn, Answers, AlignDown, Covering, Sorted;
    var answers := Answers(None, p, times);
    var w, upto := p.windowMs, from + d;
    WindowGrants(p, times, 0);
    forall start: int | start >= 0 && start % w == 0
      ensures AllowedIn(times, answers, start, start + w) <= p.requests
    {
      WindowGrants(p, times, start);
    }
    var start := AlignDown(from, w);
    var end := start + w;
    AlignedDown(from, w);
    NextMultiple(start, w);
    CoveringIsCeiling(d, w);
    if upto <= end {
      WithinWindow(times, answers, start, from, upto, end);
      AtLeastOne(p.requests, Covering(d, w));
    } else {
      AllowedSplits(times, answers, from, end, upto);
      WithinWindow(times, answers, start, from, end, end);
      FromAligned(times, answers, p, end, upto);
      BudgetIsProduct(p.requests, upto - end, w);
      CoveringMonotone(upto - end, d, w);
      MoreWindows(p.requests, Covering(upto - end, w), Covering(d, w));
    }
  }

  // ----- the in-memory limiter -----

  /** The times of one key's checks that were not refused for capacity. */
  function ServedTimes(maxBuckets: nat, m: Memory, events: seq<Event>, key: Key): seq<int>
    decreases |events|
  {
    if events == [] then []
    else match events[0]
      case Check(now, k, p) =>
        var (m', result) := MemoryCheck(maxBuckets, m, k, p, now);
        (if k == key && result != Err(CapacityExhausted) then [now] else []) + ServedTimes(maxBuckets, m', events[1..], key)
      case Drop(_, _) => ServedTimes(maxBuckets, m, events[1..], key)
  }

  /** ... and what they were answered. */
  function ServedAnswers(maxBuckets: nat, m: Memory, events: seq<Event>, key: Key): seq<bool>
    decreases |events|
  {
    if events == [] then []
    else match events[0]
      case Check(now, k, p) =>
        var (m', result) := MemoryCheck(maxBuckets, m, k, p, now);
        (if k == key && result != Err(CapacityExhausted) then [result.Ok? && result.value.allowed] else [])
          + ServedAnswers(maxBuckets, m', events[1..], key)
      case Drop(_, _) => ServedAnswers(maxBuckets, m, events[1..], key)
  }

  lemma LiveLaterInMemory(maxBuckets: nat, m: Memory, key: Key, live: Option<Window>, clock: int, now: int)
    requires MemorySound(maxBuckets, m, clock) && clock <= now && LiveAt(live, clock) == LiveInMemory(m.buckets, key, clock)
    ensures MemorySound(maxBuckets, m, now) && LiveAt(live, now) == LiveInMemory(m.buckets, key, now)
  {
    assert LiveAt(live, now) == LiveAt(LiveAt(live, clock), now);
  }

  /** A check of another key, or one that is refused, leaves the key's window alone. */
  lemma UnservedInMemory(maxBuckets: nat, m: Memory, k: Key, p: Policy, now: int, key: Key)
    requires maxBuckets > 0 && MemorySound(maxBuckets, m, now) && now >= 0
    requires k != key || MemoryCheck(maxBuckets, m, k, p, now).1 == Err(CapacityExhausted)
    ensures var m' := MemoryCheck(maxBuckets, m, k, p, now).0;
      MemorySound(maxBuckets, m', now) && LiveInMemory(m'.buckets, key, now) == LiveInMemory(m.buckets, key, now)
  {
    if ValidPolicy(p) {
      MemoryDecides(maxBuckets, m, k, p, now);
    }
  }

  /** The in-memory limiter's answers to the checks it serves depend on their
      times alone, through any number of capacity errors. */
  lemma {:induction false} ServedAreIndependent(maxBuckets: nat, m: Memory, events: seq<Event>, key: Key, p: Policy,
                                                live: Option<Window>, clock: int)
    requires maxBuckets > 0 && ValidPolicy(p) && clock >= 0 && MemorySound(maxBuckets, m, clock)
    requires NonDecreasing(events, clock) && OnlyPolicy(events, key, p)
    requires LiveAt(live, clock) == LiveInMemory(m.buckets, key, clock)
    ensures ServedAnswers(maxBuckets, m, events, key) == Answers(live, p, ServedTimes(maxBuckets, m, events, key))
    ensures Sorted(ServedTimes(maxBuckets, m, events, key), clock)
    decreases |events|
  {
    hide MemoryCheck, MemorySound, Decide, LiveAt, LiveInMemory;
    if events != [] {
      var now, rest := events[0].now, events[1..];
      LiveLaterInMemory(maxBuckets, m, key, live, clock, now);
      match events[0]
      case Drop(_, _) =>
        ServedAreIndependent(maxBuckets, m, rest, key, p, live, now);
        SortedLater(ServedTimes(maxBuckets, m, rest, key), clock, now);
      case Check(_, k, q) =>
        var (m', result) := MemoryCheck(maxBuckets, m, k, q, now);
        var times := ServedTimes(maxBuckets, m', rest, key);
        if k == key && result != Err(CapacityExhausted) {
          MemoryDecides(maxBuckets, m, key, p, now);
          var (w, d) := Decide(LiveAt(live, now), p, now);
          StillLive(live, p, now);
          ServedAreIndependent(maxBuckets, m', rest, key, p, Some(w), now);
          ConsTimes(live, p, now, times);
          ConsSorted(now, times, clock);
        } else {
          UnservedInMemory(maxBuckets, m, k, q, now, key);
          ServedAreIndependent(maxBuckets, m', rest, key, p, live, now);
          SortedLater(times, clock, now);
          assert [] + times == times;
          assert [] + ServedAnswers(maxBuckets, m', rest, key) == ServedAnswers(maxBuckets, m', rest, key);
        }
    }
  }

  lemma ConsSorted(now: int, times: seq<int>, clock: int)
    requires clock <= now && Sorted(times, now)
    ensures Sorted([now] + times, clock)
  {
    assert ([now] + times)[1..] == times;
  }

  /** The window decided on still governs at that time. */
  lemma StillLive(live: Option<Window>, p: Policy, now: int)
    requires ValidPolicy(p) && now >= 0
    ensures var w := Decide(LiveAt(live, now), p, now).0; LiveAt(Some(w), now) == Some(w)
  {
    AlignedDown(now, p.windowMs);
  }

  /** With an unchanged policy, of n checks of a key in one aligned window that
      the in-memory limiter serves exactly min(n, limit) are allowed. */
  lemma WindowGrantsExactly(maxBuckets: nat, events: seq<Event>, key: Key, p: Policy, start: nat)
    requires maxBuckets > 0 && ValidPolicy(p) && NonDecreasing(events, 0) && OnlyPolicy(events, key, p)
    requires start % p.windowMs == 0
    ensures var m := Memory(map[], 0);
      var times, answers := ServedTimes(maxBuckets, m, events, key), ServedAnswers(maxBuckets, m, events, key);
      && |times| == |answers|
      && AllowedIn(times, answers, start, start + p.windowMs)
           == Min(p.requests, ChecksIn(times, start, start + p.windowMs))
  {
    ServedAreIndependent(maxBuckets, Memory(map[], 0), events, key, p, None, 0);
    WindowGrants(p, ServedTimes(maxBuckets, Memory(map[], 0), events, key), start);
  }

  /** With an unchanged policy, any interval of length d holds at most
      limit * (ceil(d / window) + 1) checks of a key that the in-memory limiter
      allows. */
  lemma IntervalBound(maxBuckets: nat, events: seq<Event>, key: Key, p: Policy, from: nat, d: nat)
    requires maxBuckets > 0 && ValidPolicy(p) && NonDecreasing(events, 0) && OnlyPolicy(events, key, p)
    ensures var m := Memory(map[], 0);
      var times, answers := ServedTimes(maxBuckets, m, events, key), ServedAnswers(maxBuckets, m, events, key);
      && |times| == |answers|
      && AllowedIn(times, answers, from, from + d) <= p.requests * ((d + p.windowMs - 1) / p.windowMs + 1)
  {
    ServedAreIndependent(maxBuckets, Memory(map[], 0), events, key, p, None, 0);
    IntervalGrants(p, ServedTimes(maxBuckets, Memory(map[], 0), events, key), from, d);
  }

  // ----- the stored script -----

  /** The same two bounds of the script, which refuses nobody. */
  lemma StoredWindowGrantsExactly(events: seq<Event>, key: Key, p: Policy, start: nat)
    requires ValidPolicy(p) && NonDecreasing(events, 0) && OnlyPolicy(events, key, p) && start % p.windowMs == 0
    ensures var times, answers := TimesOf(events, key), AllowedOf(map[], events, key);
      && |times| == |answers|
      && AllowedIn(times, answers, start, start + p.windowMs)
           == Min(p.requests, ChecksIn(times, start, start + p.windowMs))
  {
    KeysAreIndependent(map[], events, key, p, None, 0);
    WindowGrants(p, TimesOf(events, key), start);
  }

  lemma StoredIntervalBound(events: seq<Event>, key: Key, p: Policy, from: nat, d: nat)
    requires ValidPolicy(p) && NonDecreasing(events, 0) && OnlyPolicy(events, key, p)
    ensures var times, answers := TimesOf(events, key), AllowedOf(map[], events, key);
      && |times| == |answers|
      && AllowedIn(times, answers, from, from + d) <= p.requests * ((d + p.windowMs - 1) / p.windowMs + 1)
  {
    KeysAreIndependent(map[], events, key, p, None, 0);
    IntervalGrants(p, TimesOf(events, key), from, d);
  }
}
