/** The in-memory limiter as an object over bucket objects. Every method is one critical
    section, or a stated composition of them, and is proved against the system on values. */
module MemoryLimiters {
  import opened TokenBucketModel
  import opened TokenBuckets
  import M = MemoryLimiterModel

  datatype Entry = Entry(bucket: TokenBucket, lastUsed: int)

  class MemoryLimiter {
    var buckets: map<string, Entry>
    const burst: int
    const rate: real
    const interval: int
    ghost var pool: seq<TokenBucket>  // every bucket object ever created, in order
    ghost var sys: M.System           // what the objects amount to, on values

    ghost function Config(): M.Config {
      M.Config(burst, rate, interval)
    }

    ghost predicate Tied(slot: M.Slot, bucket: TokenBucket)
      reads bucket
    {
      && bucket.Valid() && slot.params == bucket.P() && slot.bucket == bucket.State()
      && slot.born == bucket.born && slot.admitted == bucket.admitted
    }

    ghost predicate Valid()
      reads this, pool
    {
      && interval > 0 && sys.Valid() && |sys.pool| == |pool|
      && (forall i :: 0 <= i < |pool| ==> Tied(sys.pool[i], pool[i]))
      && (forall i, j :: 0 <= i < j < |pool| ==> pool[i] != pool[j])
      && sys.cells.Keys == buckets.Keys
      && (forall c :: c in buckets ==>
            && pool[sys.cells[c].id] == buckets[c].bucket
            && sys.cells[c].lastUsed == buckets[c].lastUsed)
    }

    /** A bucket can be had for the client: creating one panics on a bad default. */
    ghost predicate CanServe(client: string)
      reads this
    {
      client in buckets || Config().Valid()
    }

    /** Any burst and rate will do until a bucket is made with them; a cleanup interval that
        is not positive is replaced by one second. */
    constructor (burst: int, rate: real, interval: int)
      ensures Valid() && sys == M.Empty && pool == []
      ensures Config() == M.Config(burst, rate, if interval <= 0 then 1_000_000_000 else interval)
    {
      this.burst := burst;
      this.rate := rate;
      this.interval := if interval <= 0 then 1_000_000_000 else interval;
      this.buckets := map[];
      this.pool, this.sys := [], M.Empty;
    }

    method Install(client: string, burst: int, rate: real, now: int) returns (bucket: TokenBucket)
      requires Valid() && burst >= 1 && rate > 0.0
      modifies this
      ensures Valid() && fresh(bucket) && pool == old(pool) + [bucket]
      ensures sys == M.Create(old(sys), client, NanoParams(burst, rate), now)
    {
      bucket := new TokenBucket(burst, rate, now);
      M.CreateKeepsValid(sys, client, bucket.P(), now);
      buckets := buckets[client := Entry(bucket, now)];
      sys := M.Create(sys, client, bucket.P(), now);
      pool := pool + [bucket];
    }

    method Touch(client: string, now: int)
      requires Valid() && client in buckets
      modifies this`buckets, this`sys
      ensures Valid() && client in buckets && buckets[client].bucket == old(buckets)[client].bucket
      ensures sys == M.Fetch(old(sys), Config(), client, now)
    {
      buckets := buckets[client := buckets[client].(lastUsed := now)];
      sys := M.Fetch(sys, Config(), client, now);
    }

    method GetOrCreateBucket(client: string, now: int) returns (bucket: TokenBucket)
      requires Valid() && CanServe(client)
      modifies this
      ensures Valid()
      ensures pool == old(pool) || (fresh(bucket) && pool == old(pool) + [bucket])
      ensures sys == M.Fetch(old(sys), Config(), client, now)
      ensures client in sys.cells && pool[sys.cells[client].id] == bucket
    {
      if client !in buckets {
        bucket := Install(client, burst, rate, now);
      } else {
        Touch(client, now);
        bucket := buckets[client].bucket;
      }
    }

    /** The second half of AllowN: consume a bucket fetched at some earlier moment, which
        the index may since have dropped. */
    method ConsumeFetched(ghost id: nat, bucket: TokenBucket, n: int, now: int) returns (ok: bool)
      requires Valid() && id < |pool| && pool[id] == bucket
      modifies bucket, this`sys
      ensures Valid()
      ensures ok == M.Consumes(old(sys), id, n, now)
      ensures sys == M.Consume(old(sys), id, n, now)
    {
      M.ConsumeKeepsValid(sys, id, n, now);
      ok := bucket.AllowN(n, now);
      sys := M.Consume(sys, id, n, now);
    }

    /** Fetch, then consume; each half reads the clock for itself. */
    method AllowN(client: string, n: int, fetched: int, now: int) returns (ok: bool)
      requires Valid() && CanServe(client)
      modifies this, pool
      ensures Valid()
      ensures var found := M.Fetch(old(sys), Config(), client, fetched);
        && client in found.cells && found.cells[client].id < |found.pool|
        && ok == M.Consumes(found, found.cells[client].id, n, now)
        && sys == M.Consume(found, found.cells[client].id, n, now)
    {
      var bucket := GetOrCreateBucket(client, fetched);
      ok := ConsumeFetched(sys.cells[client].id, bucket, n, now);
    }

    method Tokens(client: string, now: int) returns (count: int)
      requires Valid()
      modifies pool, this`sys
      ensures Valid()
      ensures count == M.ShownTokens(old(sys), Config(), client, now)
      ensures sys == M.Look(old(sys), client, now)
    {
      M.LookKeepsValid(sys, client, now);
      if client !in buckets {
        return burst;
      }
      count := buckets[client].bucket.ShowTokens(now);
      sys := M.Look(sys, client, now);
    }

    method Reset(client: string)
      requires Valid()
      modifies this
      ensures Valid() && pool == old(pool)
      ensures sys == M.Drop(old(sys), client)
    {
      buckets := buckets - {client};
      sys := M.Drop(sys, client);
    }

    method SetLimit(client: string, burst: int, rps: real, now: int)
      requires Valid() && burst >= 1 && rps > 0.0
      modifies this
      ensures Valid()
      ensures sys == M.Create(old(sys), client, NanoParams(burst, rps), now)
    {
      var _ := Install(client, burst, rps, now);
    }

    /** The sweep over the entries, deleting as it goes. */
    method DeleteIdle(threshold: int)
      modifies this`buckets
      ensures buckets == map c | c in old(buckets) && !(old(buckets)[c].lastUsed < threshold) :: old(buckets)[c]
    {
      var todo := buckets.Keys;
      ghost var was := buckets;
      while todo != {}
        invariant todo <= was.Keys
        invariant buckets == map c | c in was && (c in todo || !(was[c].lastUsed < threshold)) :: was[c]
        decreases todo
      {
        var client :| client in todo;
        if buckets[client].lastUsed < threshold {
          buckets := buckets - {client};
        }
        todo := todo - {client};
      }
    }

    method Cleanup(now: int)
      requires Valid()
      modifies this
      ensures Valid() && pool == old(pool)
      ensures sys == M.Evict(old(sys), Config(), now)
    {
      DeleteIdle(now - 2 * interval);
      sys := M.Evict(sys, Config(), now);
    }
  }
}
