/** The Redis-backed limiter as an object: the server's keyspace is updated in place by
    scripts that each run to completion at one reading of the server clock. */
module RedisLimiters {
  import opened TokenBucketModel
  import opened LimiterOps
  import opened RedisLimiterModel

  class RedisLimiter {
    var db: Database
    const prefix: string
    const burst: int
    const tokensPerSecond: real

    ghost predicate Valid()
      reads this
    {
      ValidDb(db) && Cfg().default.Valid()
    }

    ghost function Cfg(): Config {
      Config(prefix, Limit(burst, tokensPerSecond))
    }

    /** An empty prefix is replaced by the default one. */
    constructor (prefix: string, burst: int, tokensPerSecond: real)
      requires burst > 0 && tokensPerSecond > 0.0
      ensures Valid() && db == map[]
      ensures Cfg() == Config(if prefix == "" then "ratelimit:" else prefix, Limit(burst, tokensPerSecond))
    {
      this.prefix := if prefix == "" then "ratelimit:" else prefix;
      this.burst := burst;
      this.tokensPerSecond := tokensPerSecond;
      this.db := map[];
    }

    /** The start of both scripts: the client's override, if there is one. */
    method ReadLimit(key: string) returns (capacity: int, refillRate: real)
      requires Valid()
      ensures Limit(capacity, refillRate) == Effective(db, Cfg(), key) && capacity >= 1 && refillRate > 0.0
    {
      capacity, refillRate := burst, tokensPerSecond;
      var over := At(db, key + CFG_SUFFIX).over;
      if over.Some? {
        capacity, refillRate := over.value.burst, over.value.rps;
      }
    }

    /** The script that refills, decides, writes back and renews the time to live. */
    method RunTokenBucketScript(key: string, requested: int, now: int) returns (result: int)
      requires Valid()
      modifies this
      ensures Valid()
      ensures result == (if ScriptGrants(Effective(old(db), Cfg(), key), At(old(db), key).bucket, requested, now)
                         then 1 else 0)
      ensures db == AfterScript(old(db), Cfg(), key, requested, now)
      // in the script's units
      ensures var limit, stored := Effective(old(db), Cfg(), key), At(old(db), key).bucket;
        result == 1 <==>
          && requested <= limit.burst
          && (stored.Some? ==>
                var elapsed := if now > stored.value.last then now - stored.value.last else 0;
                requested as real <= stored.value.level + limit.rps * elapsed as real / 1000.0)
    {
      var capacity, refillRate := ReadLimit(key);
      ghost var limit := Effective(db, Cfg(), key);
      var data := At(db, key);
      var tokens, lastRefill := capacity as real, now;
      if data.bucket.Some? {
        tokens, lastRefill := data.bucket.value.level, data.bucket.value.last;
      }
      var elapsed := now - lastRefill;
      if elapsed < 0 {
        elapsed := 0;
      }
      var newTokens := tokens + refillRate * elapsed as real / 1000.0;
      GainPerSecond(limit, elapsed);
      if newTokens > capacity as real {
        newTokens := capacity as real;
      }
      ghost var stored := data.bucket;
      if stored.Some? {
        ScriptGrantsStoredIff(limit, stored.value, requested, now);
      }
      var ttl := Ceiling(capacity as real / refillRate * 2.0) + 1;
      result := 0;
      if newTokens >= requested as real {
        newTokens := newTokens - requested as real;
        result := 1;
      }
      db := db[key := data.(bucket := Some(Bucket(newTokens, now)),
                            expiresAt := Some(now + MILLIS_PER_SECOND * ttl))];
    }

    method AllowN(client: string, n: int, now: int) returns (ok: bool)
      requires Valid()
      modifies this
      ensures Valid()
      ensures ok == (n <= 0 || ScriptGrants(Effective(old(db), Cfg(), Cfg().Key(client)),
                                            At(old(db), Cfg().Key(client)).bucket, n, now))
      ensures db == if n <= 0 then old(db) else AfterScript(old(db), Cfg(), Cfg().Key(client), n, now)
    {
      if n <= 0 {
        return true;
      }
      var result := RunTokenBucketScript(prefix + client, n, now);
      ok := result == 1;
    }

    /** The query script reads; nothing is stored, not even the refill. */
    method Tokens(client: string, now: int) returns (count: int)
      requires Valid()
      ensures count == ShownTokens(db, Cfg(), Cfg().Key(client), now)
      // in the script's units
      ensures var limit, stored := Effective(db, Cfg(), prefix + client), At(db, prefix + client).bucket;
        if stored.None? then count == limit.burst
        else
          var elapsed := if now > stored.value.last then now - stored.value.last else 0;
          var raw := stored.value.level + limit.rps * elapsed as real / 1000.0;
          if raw > limit.burst as real then count == limit.burst else count as real <= raw < (count + 1) as real
    {
      var key := prefix + client;
      var capacity, refillRate := ReadLimit(key);
      ghost var limit := Effective(db, Cfg(), key);
      var data := At(db, key);
      if data.bucket.None? {
        return capacity;
      }
      var elapsed := now - data.bucket.value.last;
      if elapsed < 0 {
        elapsed := 0;
      }
      var newTokens := data.bucket.value.level + refillRate * elapsed as real / 1000.0;
      GainPerSecond(limit, elapsed);
      if newTokens > capacity as real {
        newTokens := capacity as real;
      }
      count := newTokens.Floor;
    }

    method SetLimit(client: string, burst: int, rps: real)
      requires Valid() && burst >= 1 && rps > 0.0
      modifies this
      ensures Valid()
      ensures db == WithLimit(old(db), Cfg().Key(client), Limit(burst, rps))
    {
      var cfgKey := prefix + client + CFG_SUFFIX;
      db := db[cfgKey := At(db, cfgKey).(over := Some(Limit(burst, rps)))];
    }

    method Reset(client: string)
      requires Valid()
      modifies this
      ensures Valid()
      ensures db == Deleted(old(db), Cfg().Key(client))
    {
      db := db - {prefix + client, prefix + client + CFG_SUFFIX};
    }

    /** The server dropping a key once its time to live has passed. */
    method Expire(key: string, now: int)
      requires Valid()
      modifies this
      ensures Valid()
      ensures db == Expired(old(db), key, now)
    {
      var e := At(db, key).expiresAt;
      if e.Some? && e.value < now {
        db := db - {key};
      }
    }
  }
  datatype Opened = Opened(limiter: RedisLimiter) | BadBurst | BadRate | NoConnection

  /** A new limiter, or the first of three errors: a burst or a rate that is not positive, or
      a server that does not answer the first ping. */
  method NewRedisLimiter(prefix: string, burst: int, tokensPerSecond: real, answersPing: bool) returns (r: Opened)
    ensures r.BadBurst? <==> burst <= 0
    ensures r.BadRate? <==> burst > 0 && tokensPerSecond <= 0.0
    ensures r.NoConnection? <==> burst > 0 && tokensPerSecond > 0.0 && !answersPing
    ensures r.Opened? ==>
      && fresh(r.limiter) && r.limiter.Valid() && r.limiter.db == map[]
      && r.limiter.Cfg() == Config(if prefix == "" then "ratelimit:" else prefix, Limit(burst, tokensPerSecond))
  {
    if burst <= 0 {
      return BadBurst;
    }
    if tokensPerSecond <= 0.0 {
      return BadRate;
    }
    if !answersPing {
      return NoConnection;
    }
    var limiter := new RedisLimiter(prefix, burst, tokensPerSecond);
    return Opened(limiter);
  }
}
