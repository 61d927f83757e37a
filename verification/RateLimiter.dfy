/** The two limiters as objects updated in place, each proved equal to its step. */
module RateLimiter {
  import opened Arithmetic
  import opened Text
  import opened FixedWindow

  lemma StoredTwice(m: map<Key, Bucket>, key: Key, first: Bucket, last: Bucket)
    ensures m[key := first][key := last] == m[key := last]
  {
  }

  class FixedWindowRateLimiter {
    const maxBuckets: nat
    var buckets: map<Key, Bucket>
    var nextCleanupAt: int

    ghost function State(): Memory
      reads this
    {
      Memory(buckets, nextCleanupAt)
    }

    constructor (maxBuckets: nat)
      requires 0 < maxBuckets <= MAX_SAFE
      ensures State() == Memory(map[], 0) && this.maxBuckets == maxBuckets
    {
      this.maxBuckets := maxBuckets;
      buckets, nextCleanupAt := map[], 0;
    }

    /** The deleting loop of `#removeExpired`, in any iteration order. */
    method DeleteExpired(now: int)
      modifies this`buckets
      ensures buckets == RemoveExpired(old(buckets), now)
    {
      var pending := buckets.Keys;
      while pending != {}
        invariant pending <= buckets.Keys <= old(buckets).Keys
        invariant forall k :: k in buckets ==> buckets[k] == old(buckets)[k]
        invariant forall k :: k in old(buckets) ==>
          (k in buckets <==> k in pending || now < old(buckets)[k].resetAt)
      {
        var key :| key in pending;
        if now >= buckets[key].resetAt {
          buckets := buckets - {key};
        }
        pending := pending - {key};
      }
    }

    /** The periodic cleanup. */
    method CleanUp(now: int)
      modifies this
      ensures State() == Cleaned(old(State()), now)
    {
      if now >= nextCleanupAt {
        DeleteExpired(now);
        nextCleanupAt := now + CLEANUP_INTERVAL_MS;
      }
    }

    /** Counts one request in the bucket now stored under the key. */
    method CountRequest(key: Key, now: int) returns (d: Decision)
      requires key in buckets
      modifies this`buckets
      ensures buckets == old(buckets)[key := CountIn(old(buckets)[key], now).0]
      ensures d == CountIn(old(buckets)[key], now).1
    {
      var bucket := buckets[key];
      var retryAfterSeconds := Max(1, CeilSeconds(bucket.resetAt - now));
      if bucket.count >= bucket.limit {
        return Decision(false, bucket.limit, 0, bucket.resetAt, retryAfterSeconds);
      }
      bucket := bucket.(count := bucket.count + 1);
      buckets := buckets[key := bucket];
      return Decision(true, bucket.limit, bucket.limit - bucket.count, bucket.resetAt, retryAfterSeconds);
    }

    method CheckLimit(key: Key, policy: Policy, now: int) returns (r: Result<Decision, LimitError>)
      modifies this
      ensures (State(), r) == MemoryCheck(maxBuckets, old(State()), key, policy, now)
      ensures r == Err(InvalidPolicy) <==>
        !(1 <= policy.requests <= 9007199254740991 && 1 <= policy.windowMs <= 9007199254740991)
      ensures r == Err(InvalidClock) ==> now < 0
      ensures old(MemorySound(maxBuckets, State(), now)) && maxBuckets > 0 && now >= 0 ==>
        MemorySound(maxBuckets, State(), now) && (r.Ok? ==> Stamped(r.value, policy, now))
    {
      hide Stamped, MemorySound;
      if maxBuckets > 0 && now >= 0 && MemorySound(maxBuckets, State(), now) && ValidPolicy(policy) {
        MemoryDecides(maxBuckets, State(), key, policy, now);
      }
      if !ValidPolicy(policy) {
        return Err(InvalidPolicy);
      }
      if now < 0 {
        return Err(InvalidClock);
      }
      CleanUp(now);
      ghost var cleaned := buckets;
      ghost var room := if key !in cleaned && |cleaned| >= maxBuckets then RemoveExpired(cleaned, now) else cleaned;
      var renewed := OpenWindow(key, policy, now);
      if !renewed {
        return Err(CapacityExhausted);
      }
      ghost var bucket := buckets[key];
      var d := CountRequest(key, now);
      StoredTwice(room, key, bucket, CountIn(bucket, now).0);
      return Ok(d);
    }

    /** Puts a fresh bucket under the key unless the present one still applies;
        fails, having removed what expired, when there is no room for a new key. */
    method OpenWindow(key: Key, policy: Policy, now: int) returns (ok: bool)
      requires ValidPolicy(policy)
      modifies this`buckets
      ensures ok <==> key in old(buckets) || |old(buckets)| < maxBuckets || |RemoveExpired(old(buckets), now)| < maxBuckets
      ensures var stale := key !in old(buckets) || now >= old(buckets)[key].resetAt
          || old(buckets)[key].limit != policy.requests || old(buckets)[key].windowMs != policy.windowMs;
        var room :=
          if key !in old(buckets) && |old(buckets)| >= maxBuckets then RemoveExpired(old(buckets), now) else old(buckets);
        var resetAt := AlignDown(now, policy.windowMs) + policy.windowMs;
        buckets ==
          if !ok then room
          else if stale then room[key := Bucket(0, policy.requests, policy.windowMs, resetAt)]
          else room[key := old(buckets)[key]]
    {
      if key !in buckets || now >= buckets[key].resetAt
        || buckets[key].limit != policy.requests || buckets[key].windowMs != policy.windowMs
      {
        if key !in buckets && |buckets| >= maxBuckets {
          DeleteExpired(now);
          if |buckets| >= maxBuckets {
            return false;
          }
        }
        var windowStart := now / policy.windowMs * policy.windowMs;
        buckets := buckets[key := Bucket(0, policy.requests, policy.windowMs, windowStart + policy.windowMs)];
      }
      return true;
    }
  }

  /** The store that runs the script; one script runs at a time. */
  class ScriptedStore {
    var hashes: Redis

    constructor ()
      ensures hashes == map[]
    {
      hashes := map[];
    }

    /** The script's own commands: read four fields, reset them if any differs,
        increment under the limit, set the time to live. */
    method Eval(key: Key, requestedLimit: int, windowMs: int, now: int) returns (d: Decision)
      requires 0 < requestedLimit && 0 < windowMs
      modifies this
      ensures ValidPolicy(Policy(requestedLimit, windowMs)) ==>
        (hashes, Ok(d)) == RedisCheck(old(hashes), key, Policy(requestedLimit, windowMs), now)
      ensures ValidPolicy(Policy(requestedLimit, windowMs)) && old(RedisSound(hashes, now)) && now >= 0 ==>
        RedisSound(hashes, now) && Stamped(d, Policy(requestedLimit, windowMs), now)
    {
      hide Stamped, RedisSound;
      if ValidPolicy(Policy(requestedLimit, windowMs)) && now >= 0 && RedisSound(hashes, now) {
        RedisDecides(hashes, key, Policy(requestedLimit, windowMs), now);
      }
      var windowStart := now - now % windowMs;
      var resetAt := windowStart + windowMs;
      var existing := if key in hashes then Some(hashes[key]) else None;
      var count := if existing.Some? then existing.value.count else 0;
      if existing.None? || existing.value.start != windowStart
        || existing.value.limit != requestedLimit || existing.value.window != windowMs
      {
        count := 0;
        var ttl := if existing.Some? then existing.value.expiresAt else now;
        hashes := hashes[key := Hash(windowStart, count, requestedLimit, windowMs, ttl)];
      }
      var allowed := false;
      if count < requestedLimit {
        count := hashes[key].count + 1;
        hashes := hashes[key := hashes[key].(count := count)];
        allowed := true;
      }
      hashes := hashes[key := hashes[key].(expiresAt := now + Max(1, resetAt - now))];
      assert hashes == old(hashes)[key := hashes[key]];
      var remaining := Max(0, requestedLimit - count);
      var retryAfter := Max(1, CeilSeconds(resetAt - now));
      return Decision(allowed, requestedLimit, remaining, resetAt, retryAfter);
    }
  }
}
