/** The in-memory limiter on values. Buckets keep their identity: a bucket dropped from the
    index stays in the pool, where a caller that fetched it earlier can still consume it. */
module MemoryLimiterModel {
  import opened TokenBucketModel
  import opened TokenBuckets

  datatype Config = Config(burst: int, rate: real, interval: int) {
    predicate Valid() {
      burst >= 1 && rate > 0.0 && interval > 0
    }
    function P(): Params {
      NanoParams(burst, rate)
    }
  }

  datatype Slot = Slot(owner: string, params: Params, born: int, bucket: Bucket, admitted: int) {
    /** A bucket never hands out more than its burst plus what accrued over its life. */
    predicate Valid() {
      && params.Valid() && bucket.Within(params) && born <= bucket.last
      && bucket.level + admitted as real <= params.capacity as real + Gain(params, bucket.last - born)
    }
  }

  datatype Cell = Cell(id: nat, lastUsed: int)

  datatype System = System(pool: seq<Slot>, cells: map<string, Cell>) {
    predicate Valid() {
      && (forall i :: 0 <= i < |pool| ==> pool[i].Valid())
      && (forall c :: c in cells ==> cells[c].id < |pool| && pool[cells[c].id].owner == c)
    }
  }

  const Empty: System := System([], map[])

  // ----- atomic steps -----

  function Create(sys: System, client: string, p: Params, now: int): System {
    System(sys.pool + [Slot(client, p, now, Full(p, now), 0)],
           sys.cells[client := Cell(|sys.pool|, now)])
  }

  function Fetch(sys: System, cfg: Config, client: string, now: int): System {
    if client in sys.cells then
      sys.(cells := sys.cells[client := sys.cells[client].(lastUsed := now)])
    else
      Create(sys, client, cfg.P(), now)
  }

  predicate Consumes(sys: System, id: nat, n: int, now: int)
    requires id < |sys.pool|
  {
    Grants(sys.pool[id].params, sys.pool[id].bucket, now, n)
  }

  /** Consuming needs the bucket alone, whether or not the index still leads to it. */
  function Consume(sys: System, id: nat, n: int, now: int): System
    requires id < |sys.pool|
  {
    var slot := sys.pool[id];
    var paid := if n > 0 && Consumes(sys, id, n, now) then n else 0;
    sys.(pool := sys.pool[id := slot.(bucket := Taken(slot.params, slot.bucket, now, n),
                                      admitted := slot.admitted + paid)])
  }

  function ShownTokens(sys: System, cfg: Config, client: string, now: int): int
    requires sys.Valid()
  {
    if client in sys.cells then
      var slot := sys.pool[sys.cells[client].id];
      Tokens(slot.params, slot.bucket, now)
    else cfg.burst
  }

  function Look(sys: System, client: string, now: int): System
    requires sys.Valid()
  {
    if client in sys.cells then
      var id := sys.cells[client].id;
      var slot := sys.pool[id];
      sys.(pool := sys.pool[id := slot.(bucket := Refill(slot.params, slot.bucket, now))])
    else sys
  }

  function Drop(sys: System, client: string): System {
    sys.(cells := sys.cells - {client})
  }

  predicate Idle(cfg: Config, lastUsed: int, now: int) {
    lastUsed < now - 2 * cfg.interval
  }

  function Evict(sys: System, cfg: Config, now: int): System {
    sys.(cells := map c | c in sys.cells && !Idle(cfg, sys.cells[c].lastUsed, now) :: sys.cells[c])
  }

  lemma ConsumeKeepsValid(sys: System, id: nat, n: int, now: int)
    requires sys.Valid() && id < |sys.pool|
    ensures Consume(sys, id, n, now).Valid()
  {
  }

  lemma LookKeepsValid(sys: System, client: string, now: int)
    requires sys.Valid()
    ensures Look(sys, client, now).Valid()
  {
  }

  lemma CreateKeepsValid(sys: System, client: string, p: Params, now: int)
    requires sys.Valid() && p.Valid()
    ensures Create(sys, client, p, now).Valid()
  {
  }

  lemma FetchKeepsValid(sys: System, cfg: Config, client: string, now: int)
    requires sys.Valid() && cfg.Valid()
    ensures Fetch(sys, cfg, client, now).Valid()
    ensures client in Fetch(sys, cfg, client, now).cells
  {
  }
}
