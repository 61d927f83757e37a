/** Two fixed-window limiters, an in-memory one and a stored hash updated by an
    atomic script, and the one policy they both implement. Times are whole
    milliseconds. */
module FixedWindow {
  import opened Arithmetic
  import opened Text

  const MAX_SAFE: int := 9007199254740991
  const CLEANUP_INTERVAL_MS: int := 60000

  type Key = string

  datatype Policy = Policy(requests: int, windowMs: int)

  datatype Decision = Decision(allowed: bool, limit: int, remaining: int, resetAt: int, retryAfterSeconds: int)

  datatype LimitError = InvalidPolicy | InvalidClock | CapacityExhausted

  predicate ValidPolicy(p: Policy) {
    0 < p.requests <= MAX_SAFE && 0 < p.windowMs <= MAX_SAFE
  }

  function CeilSeconds(ms: int): int {
    (ms + 999) / 1000
  }

  /** `Math.floor(now / windowMs) * windowMs` */
  function AlignDown(now: int, windowMs: int): int
    requires windowMs > 0
  {
    now / windowMs * windowMs
  }

  // ----- the policy, one key at a time -----

  datatype Window = Window(start: int, limit: int, windowMs: int, count: int)

  /** Whether a window still governs requests at a time. */
  predicate Governs(w: Window, now: int) {
    now < w.start + w.windowMs
  }

  /** Continue the governing window if it is for this very policy, else open a
      fresh aligned one; allow while the count is below the limit. */
  function Current(live: Option<Window>, p: Policy, now: int): Window
    requires ValidPolicy(p)
  {
    if live.Some? && live.value.limit == p.requests && live.value.windowMs == p.windowMs then live.value
    else Window(AlignDown(now, p.windowMs), p.requests, p.windowMs, 0)
  }

  function Decide(live: Option<Window>, p: Policy, now: int): (Window, Decision)
    requires ValidPolicy(p)
  {
    var w := Current(live, p, now);
    var resetAt := w.start + w.windowMs;
    var retry := Max(1, CeilSeconds(resetAt - now));
    if w.count < w.limit then
      (w.(count := w.count + 1), Decision(true, w.limit, w.limit - w.count - 1, resetAt, retry))
    else (w, Decision(false, w.limit, 0, resetAt, retry))
  }

  /** Aligned, started by now, and never over its limit. */
  predicate Sound(w: Window, now: int) {
    && w.windowMs > 0 && w.start % w.windowMs == 0 && w.start <= now
    && 0 <= w.count <= w.limit && 0 < w.limit
  }

  lemma {:induction false} AlignDownUnique(start: int, now: int, windowMs: int)
    requires windowMs > 0 && start % windowMs == 0 && start <= now < start + windowMs
    ensures AlignDown(now, windowMs) == start
  {
    var q := start / windowMs;
    assert start == q * windowMs;
    assert now / windowMs == q by {
      DivideBetween(now, q, windowMs);
    }
  }

  lemma DivideBetween(x: int, q: int, w: int)
    requires w > 0 && q * w <= x < q * w + w
    ensures x / w == q
  {
    var d := x / w;
    assert x == d * w + x % w;
    if d < q {
      TimesKeepsOrder(d + 1, q, w);
    } else if q < d {
      TimesKeepsOrder(q + 1, d, w);
    }
  }

  lemma TimesKeepsOrder(a: int, b: int, w: int)
    requires a <= b && w > 0
    ensures a * w <= b * w
  {
  }

  lemma AlignedDown(now: int, windowMs: int)
    requires windowMs > 0
    ensures AlignDown(now, windowMs) <= now < AlignDown(now, windowMs) + windowMs
    ensures AlignDown(now, windowMs) % windowMs == 0
    ensures now >= 0 ==> AlignDown(now, windowMs) >= 0
  {
    assert now == AlignDown(now, windowMs) + now % windowMs;
    MultipleHasNoRemainder(now / windowMs, windowMs);
  }

  lemma MultipleHasNoRemainder(q: int, w: int)
    requires w > 0
    ensures (q * w) % w == 0
  {
    DivideBetween(q * w, q, w);
    assert q * w == (q * w) / w * w + (q * w) % w;
  }

  lemma DecideSound(live: Option<Window>, p: Policy, now: int)
    requires ValidPolicy(p) && now >= 0 && (live.Some? ==> Sound(live.value, now) && Governs(live.value, now))
    ensures var (w, d) := Decide(live, p, now);
      && Sound(w, now) && Governs(w, now)
      && w.start == AlignDown(now, p.windowMs) && w.limit == p.requests && w.windowMs == p.windowMs
  {
    AlignedDown(now, p.windowMs);
    if live.Some? && live.value.limit == p.requests && live.value.windowMs == p.windowMs {
      AlignDownUnique(live.value.start, now, p.windowMs);
    }
  }

  /** What an answer tells the caller: the policy's limit, when the aligned window
      of the moment ends, and how many whole seconds away that is, rounded up and at
      least one. */
  predicate Stamped(d: Decision, p: Policy, now: int) {
    && d.limit == p.requests && 0 <= d.remaining < d.limit && (!d.allowed ==> d.remaining == 0)
    && (p.windowMs > 0 ==> d.resetAt % p.windowMs == 0) && now < d.resetAt <= now + p.windowMs
    && d.retryAfterSeconds >= 1 && d.resetAt - now <= d.retryAfterSeconds * 1000
    && (d.retryAfterSeconds == 1 || (d.retryAfterSeconds - 1) * 1000 < d.resetAt - now)
  }

  lemma DecideStamped(live: Option<Window>, p: Policy, now: int)
    requires ValidPolicy(p) && now >= 0 && (live.Some? ==> Sound(live.value, now) && Governs(live.value, now))
    ensures Stamped(Decide(live, p, now).1, p, now)
  {
    hide AlignDown, Sound, Current, Max, CeilSeconds;
    DecideSound(live, p, now);
    CurrentSound(live, p, now);
    AlignedDown(now, p.windowMs);
    var resetAt := AlignDown(now, p.windowMs) + p.windowMs;
    NextMultiple(AlignDown(now, p.windowMs), p.windowMs);
    RoundedUp(resetAt - now);
  }

  lemma CurrentSound(live: Option<Window>, p: Policy, now: int)
    requires ValidPolicy(p) && now >= 0 && (live.Some? ==> Sound(live.value, now) && Governs(live.value, now))
    ensures var w := Current(live, p, now);
      w.start == AlignDown(now, p.windowMs) && w.limit == p.requests && w.windowMs == p.windowMs && 0 <= w.count <= w.limit
  {
    hide AlignDown;
    if live.Some? && live.value.limit == p.requests && live.value.windowMs == p.windowMs {
      AlignDownUnique(live.value.start, now, p.windowMs);
    }
  }

  lemma NextMultiple(start: int, w: int)
    requires w > 0 && start % w == 0
    ensures (start + w) % w == 0
  {
    var q := start / w;
    assert start == q * w;
    assert (q + 1) * w == q * w + w;
    MultipleHasNoRemainder(q + 1, w);
  }

  lemma RoundedUp(ms: int)
    requires ms > 0
    ensures var seconds := Max(1, CeilSeconds(ms));
      seconds >= 1 && ms <= seconds * 1000 && (seconds == 1 || (seconds - 1) * 1000 < ms)
  {
  }

  // ----- in memory -----

  datatype Bucket = Bucket(count: int, limit: int, windowMs: int, resetAt: int)

  datatype Memory = Memory(buckets: map<Key, Bucket>, nextCleanupAt: int)

  function RemoveExpired(buckets: map<Key, Bucket>, now: int): map<Key, Bucket> {
    map k | k in buckets && now < buckets[k].resetAt :: buckets[k]
  }

  function Cleaned(m: Memory, now: int): Memory {
    if now >= m.nextCleanupAt then Memory(RemoveExpired(m.buckets, now), now + CLEANUP_INTERVAL_MS) else m
  }

  function MemoryCheck(maxBuckets: nat, m: Memory, key: Key, p: Policy, now: int): (Memory, Result<Decision, LimitError>) {
    if !ValidPolicy(p) then (m, Err(InvalidPolicy))
    else if now < 0 then (m, Err(InvalidClock))
    else
      var m1 := Cleaned(m, now);
      var known := key in m1.buckets;
      var stale := !known || now >= m1.buckets[key].resetAt
        || m1.buckets[key].limit != p.requests || m1.buckets[key].windowMs != p.windowMs;
      var full := !known && |m1.buckets| >= maxBuckets;
      var m2 := if full then m1.(buckets := RemoveExpired(m1.buckets, now)) else m1;
      if full && |m2.buckets| >= maxBuckets then (m2, Err(CapacityExhausted))
      else
        var bucket := if stale
          then Bucket(0, p.requests, p.windowMs, AlignDown(now, p.windowMs) + p.windowMs)
          else m1.buckets[key];
        var (counted, d) := CountIn(bucket, now);
        (m2.(buckets := m2.buckets[key := counted]), Ok(d))
  }

  function CountIn(bucket: Bucket, now: int): (Bucket, Decision) {
    var retry := Max(1, CeilSeconds(bucket.resetAt - now));
    if bucket.count >= bucket.limit then
      (bucket, Decision(false, bucket.limit, 0, bucket.resetAt, retry))
    else
      (bucket.(count := bucket.count + 1),
       Decision(true, bucket.limit, bucket.limit - (bucket.count + 1), bucket.resetAt, retry))
  }

  // ----- stored -----

  datatype Hash = Hash(start: int, count: int, limit: int, window: int, expiresAt: int)

  type Redis = map<Key, Hash>

  /** The script, run atomically on the store. */
  function RedisCheck(r: Redis, key: Key, p: Policy, now: int): (Redis, Result<Decision, LimitError>)
  {
    if !ValidPolicy(p) then (r, Err(InvalidPolicy))
    else
      var windowStart := now - now % p.windowMs;
      var resetAt := windowStart + p.windowMs;
      var keep := key in r && r[key].start == windowStart && r[key].limit == p.requests && r[key].window == p.windowMs;
      var count := if keep then r[key].count else 0;
      var allowed := count < p.requests;
      var count' := if allowed then count + 1 else count;
      var expiresAt := now + Max(1, resetAt - now);
      (r[key := Hash(windowStart, count', p.requests, p.windowMs, expiresAt)],
       Ok(Decision(allowed, p.requests, Max(0, p.requests - count'), resetAt, Max(1, CeilSeconds(resetAt - now)))))
  }

  // ----- both hold the policy's window -----

  function AsWindow(b: Bucket): Window {
    Window(b.resetAt - b.windowMs, b.limit, b.windowMs, b.count)
  }

  function LiveInMemory(buckets: map<Key, Bucket>, key: Key, now: int): Option<Window> {
    if key in buckets && now < buckets[key].resetAt then
      Some(AsWindow(buckets[key]))
    else None
  }

  function LiveInRedis(r: Redis, key: Key, now: int): Option<Window> {
    if key in r && now < r[key].start + r[key].window then
      var h := r[key];
      Some(Window(h.start, h.limit, h.window, h.count))
    else None
  }

  ghost predicate MemorySound(maxBuckets: nat, m: Memory, now: int) {
    && |m.buckets| <= maxBuckets
    && forall k :: k in m.buckets ==> Sound(AsWindow(m.buckets[k]), now)
  }

  /** A hash is kept at least as long as its window governs. */
  ghost predicate RedisSound(r: Redis, now: int) {
    forall k :: k in r ==>
      var h := r[k]; Sound(Window(h.start, h.limit, h.window, h.count), now) && h.start + h.window <= h.expiresAt
  }

  /** The keys other than this one whose buckets have not expired. */
  function LiveOthers(buckets: map<Key, Bucket>, key: Key, now: int): set<Key> {
    set k | k in buckets && k != key && now < buckets[k].resetAt
  }

  lemma CardinalityAtMost<T>(a: set<T>, b: set<T>)
    requires a <= b
    ensures |a| <= |b|
  {
    if a != {} {
      var x :| x in a;
      CardinalityAtMost(a - {x}, b - {x});
    }
  }

  lemma CleaningKeepsOthers(m: Memory, key: Key, now: int)
    ensures LiveOthers(Cleaned(m, now).buckets, key, now) == LiveOthers(m.buckets, key, now)
  {
  }

  /** A map at its limit without the key has room after removing what expired,
      exactly when fewer live keys than the limit remain. */
  lemma RoomIff(buckets: map<Key, Bucket>, key: Key, now: int, maxBuckets: nat)
    requires |buckets| <= maxBuckets
    ensures key in buckets ==> |LiveOthers(buckets, key, now)| < maxBuckets
    ensures key !in buckets ==> |LiveOthers(buckets, key, now)| == |RemoveExpired(buckets, now)| <= |buckets|
  {
    var others, live := LiveOthers(buckets, key, now), RemoveExpired(buckets, now);
    assert |buckets| == |buckets.Keys| && |live| == |live.Keys|;
    if key in buckets {
      CardinalityAtMost(others, buckets.Keys - {key});
    } else {
      assert others == live.Keys;
      CardinalityAtMost(others, buckets.Keys);
    }
  }

  /** Capacity runs out exactly when `maxBuckets` other keys hold unexpired buckets. */
  lemma CapacityIff(maxBuckets: nat, m: Memory, key: Key, p: Policy, now: int)
    requires |m.buckets| <= maxBuckets && ValidPolicy(p) && now >= 0
    ensures MemoryCheck(maxBuckets, m, key, p, now).1 == Err(CapacityExhausted) <==>
      |LiveOthers(m.buckets, key, now)| >= maxBuckets
  {
    hide LiveOthers, RemoveExpired, CountIn, AlignDown, Sound;
    CleaningKeepsOthers(m, key, now);
    CleaningUnseen(m.buckets, now);
    RoomIff(Cleaned(m, now).buckets, key, now, maxBuckets);
  }

  lemma CleaningUnseen(buckets: map<Key, Bucket>, now: int)
    ensures |RemoveExpired(buckets, now)| <= |buckets|
    ensures forall k :: LiveInMemory(RemoveExpired(buckets, now), k, now) == LiveInMemory(buckets, k, now)
  {
    var kept := RemoveExpired(buckets, now);
    assert |kept| == |kept.Keys| && |buckets| == |buckets.Keys|;
    CardinalityAtMost(kept.Keys, buckets.Keys);
  }

  lemma CleaningKeeps(maxBuckets: nat, m: Memory, now: int)
    requires MemorySound(maxBuckets, m, now)
    ensures MemorySound(maxBuckets, m.(buckets := RemoveExpired(m.buckets, now)), now)
  {
    CleaningUnseen(m.buckets, now);
  }

  lemma CountInDecides(bucket: Bucket, live: Option<Window>, p: Policy, now: int)
    requires ValidPolicy(p) && AsWindow(bucket) == Current(live, p, now)
    ensures var (counted, d) := CountIn(bucket, now);
      AsWindow(counted) == Decide(live, p, now).0 && d == Decide(live, p, now).1 && counted.resetAt == bucket.resetAt
  {
  }

  /** The bucket the check counts in is the policy's current window. */
  lemma BucketIsCurrent(buckets: map<Key, Bucket>, key: Key, p: Policy, now: int)
    requires ValidPolicy(p) && now >= 0
    ensures var stale := key !in buckets || now >= buckets[key].resetAt
        || buckets[key].limit != p.requests || buckets[key].windowMs != p.windowMs;
      var bucket := if stale then Bucket(0, p.requests, p.windowMs, AlignDown(now, p.windowMs) + p.windowMs) else buckets[key];
      AsWindow(bucket) == Current(LiveInMemory(buckets, key, now), p, now)
  {
  }

  lemma StoreKeeps(maxBuckets: nat, m: Memory, key: Key, counted: Bucket, now: int)
    requires MemorySound(maxBuckets, m, now) && (key in m.buckets || |m.buckets| < maxBuckets)
    requires Sound(AsWindow(counted), now) && Governs(AsWindow(counted), now)
    ensures var m' := m.(buckets := m.buckets[key := counted]);
      && MemorySound(maxBuckets, m', now)
      && LiveInMemory(m'.buckets, key, now) == Some(AsWindow(counted))
      && forall k :: k != key ==> LiveInMemory(m'.buckets, k, now) == LiveInMemory(m.buckets, k, now)
  {
  }

  lemma LiveIsSound(maxBuckets: nat, m: Memory, key: Key, now: int)
    requires MemorySound(maxBuckets, m, now)
    ensures var live := LiveInMemory(m.buckets, key, now);
      live.Some? ==> Sound(live.value, now) && Governs(live.value, now)
  {
  }

  /** The in-memory limiter decides as the policy does and disturbs no other key. */
  lemma MemoryDecides(maxBuckets: nat, m: Memory, key: Key, p: Policy, now: int)
    requires maxBuckets > 0 && MemorySound(maxBuckets, m, now) && ValidPolicy(p) && now >= 0
    ensures var (m', r) := MemoryCheck(maxBuckets, m, key, p, now);
      && MemorySound(maxBuckets, m', now)
      && (r.Ok? ==> r.value == Decide(LiveInMemory(m.buckets, key, now), p, now).1)
      && (r.Ok? ==> Stamped(r.value, p, now))
      && (r.Ok? ==> LiveInMemory(m'.buckets, key, now) == Some(Decide(LiveInMemory(m.buckets, key, now), p, now).0))
      && (r.Err? ==> r.error == CapacityExhausted)
      && (r.Err? ==> LiveInMemory(m'.buckets, key, now) == LiveInMemory(m.buckets, key, now))
      && forall k :: k != key ==> LiveInMemory(m'.buckets, k, now) == LiveInMemory(m.buckets, k, now)
  {
    hide RemoveExpired, CountIn, Decide, Current, AlignDown, Sound, LiveInMemory, AsWindow, Stamped;
    var live := LiveInMemory(m.buckets, key, now);
    var m1 := Cleaned(m, now);
    CleaningUnseen(m.buckets, now);
    CleaningUnseen(m1.buckets, now);
    CleaningKeeps(maxBuckets, m, now);
    CleaningKeeps(maxBuckets, m1, now);
    LiveIsSound(maxBuckets, m, key, now);
    DecideSound(live, p, now);
    DecideStamped(live, p, now);
    BucketIsCurrent(m1.buckets, key, p, now);
    var stale := key !in m1.buckets || now >= m1.buckets[key].resetAt
      || m1.buckets[key].limit != p.requests || m1.buckets[key].windowMs != p.windowMs;
    var bucket := if stale then Bucket(0, p.requests, p.windowMs, AlignDown(now, p.windowMs) + p.windowMs) else m1.buckets[key];
    CountInDecides(bucket, live, p, now);
    var m2 := if key !in m1.buckets && |m1.buckets| >= maxBuckets then m1.(buckets := RemoveExpired(m1.buckets, now)) else m1;
    if key in m2.buckets || |m2.buckets| < maxBuckets {
      StoreKeeps(maxBuckets, m2, key, CountIn(bucket, now).0, now);
    }
  }

  lemma StartByRemainder(now: int, windowMs: int)
    requires windowMs > 0
    ensures now - now % windowMs == AlignDown(now, windowMs)
  {
  }

  /** The script decides as the policy does and disturbs no other key. */
  lemma RedisDecides(r: Redis, key: Key, p: Policy, now: int)
    requires RedisSound(r, now) && ValidPolicy(p) && now >= 0
    ensures var (r', result) := RedisCheck(r, key, p, now);
      && RedisSound(r', now)
      && result == Ok(Decide(LiveInRedis(r, key, now), p, now).1)
      && Stamped(result.value, p, now)
      && LiveInRedis(r', key, now) == Some(Decide(LiveInRedis(r, key, now), p, now).0)
      && forall k :: k != key ==> LiveInRedis(r', k, now) == LiveInRedis(r, k, now)
  {
    hide CeilSeconds, AlignDown, Stamped;
    var live := LiveInRedis(r, key, now);
    DecideSound(live, p, now);
    DecideStamped(live, p, now);
    StartByRemainder(now, p.windowMs);
    AlignedDown(now, p.windowMs);
    if live.Some? && live.value.limit == p.requests && live.value.windowMs == p.windowMs {
      AlignDownUnique(live.value.start, now, p.windowMs);
    }
  }
}
