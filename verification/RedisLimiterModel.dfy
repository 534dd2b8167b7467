/** The Redis scripts on values. The database is one keyspace of hashes: a client's bucket
    lives under its key and its override under the same key with ":cfg" appended. Time is
    the server's, in milliseconds. */
module RedisLimiterModel {
  import opened TokenBucketModel
  import opened LimiterOps

  const MILLIS_PER_SECOND := 1000
  const CFG_SUFFIX := ":cfg"

  datatype Limit = Limit(burst: int, rps: real) {
    predicate Valid() {
      burst >= 1 && rps > 0.0
    }
    function P(): Params {
      Params(burst, rps / MILLIS_PER_SECOND as real)
    }
    /** Seconds an untouched bucket is kept: twice the time to fill it, rounded up, and one. */
    function TimeToLive(): int
      requires Valid()
    {
      Ceiling(burst as real / rps * 2.0) + 1
    }
  }

  /** The refill in the script's units: the rate is per second, the clock in milliseconds. */
  lemma GainPerSecond(limit: Limit, millis: int)
    ensures Gain(limit.P(), millis) == limit.rps * millis as real / 1000.0
  {
  }

  /** What the script decides for a stored bucket, in those units. */
  lemma ScriptGrantsStoredIff(limit: Limit, b: Bucket, n: int, now: int)
    ensures ScriptGrants(limit, Some(b), n, now)
       <==> && n <= limit.burst
            && n as real <= b.level + limit.rps * (if now > b.last then now - b.last else 0) as real / 1000.0
  {
    GainPerSecond(limit, if now < b.last then 0 else now - b.last);
  }

  function Ceiling(x: real): int {
    -(-x).Floor
  }

  datatype Config = Config(prefix: string, default: Limit) {
    function Key(client: string): string {
      prefix + client
    }
  }

  datatype Hash = Hash(bucket: Option<Bucket>, over: Option<Limit>, expiresAt: Option<int>)

  type Database = map<string, Hash>

  predicate ValidDb(db: Database) {
    forall k :: k in db && db[k].over.Some? ==> db[k].over.value.Valid()
  }

  function At(db: Database, key: string): Hash {
    if key in db then db[key] else Hash(None, None, None)
  }

  /** The override if there is one, else the default. */
  function Effective(db: Database, cfg: Config, key: string): Limit {
    var over := At(db, key + CFG_SUFFIX).over;
    if over.Some? then over.value else cfg.default
  }

  /** The scripts ignore a clock that stepped back, but record its reading all the same. */
  function ScriptRefill(p: Params, b: Bucket, now: int): Bucket {
    Bucket(Clamp(p, b.level + Gain(p, if now < b.last then 0 else now - b.last)), now)
  }

  function Current(p: Params, stored: Option<Bucket>, now: int): Bucket {
    ScriptRefill(p, if stored.Some? then stored.value else Full(p, now), now)
  }

  predicate ScriptGrants(limit: Limit, stored: Option<Bucket>, n: int, now: int) {
    Current(limit.P(), stored, now).level >= n as real
  }

  function ScriptTaken(limit: Limit, stored: Option<Bucket>, n: int, now: int): Bucket {
    var b := Current(limit.P(), stored, now);
    if b.level >= n as real then b.(level := b.level - n as real) else b
  }

  function AfterScript(db: Database, cfg: Config, key: string, n: int, now: int): Database
    requires ValidDb(db) && cfg.default.Valid()
  {
    var limit := Effective(db, cfg, key);
    db[key := At(db, key).(bucket := Some(ScriptTaken(limit, At(db, key).bucket, n, now)),
                           expiresAt := Some(now + MILLIS_PER_SECOND * limit.TimeToLive()))]
  }

  function ShownTokens(db: Database, cfg: Config, key: string, now: int): int {
    var limit := Effective(db, cfg, key);
    var stored := At(db, key).bucket;
    if stored.None? then limit.burst else ScriptRefill(limit.P(), stored.value, now).level.Floor
  }

  function WithLimit(db: Database, key: string, limit: Limit): Database {
    db[key + CFG_SUFFIX := At(db, key + CFG_SUFFIX).(over := Some(limit))]
  }

  function Deleted(db: Database, key: string): Database {
    db - {key, key + CFG_SUFFIX}
  }

  /** A key lives through the instant it expires at; the server drops it only after that. */
  predicate Due(db: Database, key: string, now: int) {
    var e := At(db, key).expiresAt;
    e.Some? && e.value < now
  }

  function Expired(db: Database, key: string, now: int): Database {
    if Due(db, key, now) then db - {key} else db
  }
}
