/** The bound on admissions that survives every interleaving of the limiter's atomic steps,
    including buckets that were dropped from the index while a caller still held them. */
module BucketGenerations {
  import opened TokenBucketModel
  import opened TokenBuckets
  import opened MemoryLimiterModel

  /** One critical section each. `Consume` is the second half of AllowN: the caller names
      the bucket it fetched, at whatever moment that was. */
  datatype Step =
    | FetchFor(client: string, at: int)
    | ConsumeFrom(id: nat, n: int, at: int)
    | LookAt(client: string, at: int)
    | Replace(client: string, burst: int, rps: real, at: int)
    | Forget(client: string, at: int)
    | Sweep(at: int)

  function Apply(sys: System, cfg: Config, step: Step): System
    requires sys.Valid()
  {
    match step
    case FetchFor(c, at) => Fetch(sys, cfg, c, at)
    case ConsumeFrom(id, n, at) => if id < |sys.pool| then Consume(sys, id, n, at) else sys
    case LookAt(c, at) => Look(sys, c, at)
    case Replace(c, burst, rps, at) =>
      if burst >= 1 && rps > 0.0 then Create(sys, c, NanoParams(burst, rps), at) else sys
    case Forget(c, _) => Drop(sys, c)
    case Sweep(at) => Evict(sys, cfg, at)
  }

  lemma ApplyKeepsValid(sys: System, cfg: Config, step: Step)
    requires sys.Valid() && cfg.Valid()
    ensures Apply(sys, cfg, step).Valid()
  {
    match step
    case FetchFor(c, at) => FetchKeepsValid(sys, cfg, c, at);
    case ConsumeFrom(id, n, at) => if id < |sys.pool| { ConsumeKeepsValid(sys, id, n, at); }
    case LookAt(c, at) => LookKeepsValid(sys, c, at);
    case Replace(c, burst, rps, at) =>
      if burst >= 1 && rps > 0.0 { CreateKeepsValid(sys, c, NanoParams(burst, rps), at); }
    case Forget(_, _) =>
    case Sweep(_) =>
  }

  ghost function Ran(sys: System, cfg: Config, steps: seq<Step>): System
    requires sys.Valid() && cfg.Valid()
    ensures Ran(sys, cfg, steps).Valid()
    decreases |steps|
  {
    if steps == [] then sys
    else
      ApplyKeepsValid(sys, cfg, steps[0]);
      Ran(Apply(sys, cfg, steps[0]), cfg, steps[1..])
  }

  /** Tokens that this step hands out on behalf of the client. */
  function GrantedBy(sys: System, step: Step, client: string): int {
    if step.ConsumeFrom? && step.id < |sys.pool| && sys.pool[step.id].owner == client
       && step.n > 0 && Consumes(sys, step.id, step.n, step.at)
    then step.n else 0
  }

  /** Tokens handed out to the client over the whole run. */
  ghost function Granted(sys: System, cfg: Config, steps: seq<Step>, client: string): int
    requires sys.Valid() && cfg.Valid()
    decreases |steps|
  {
    if steps == [] then 0
    else
      ApplyKeepsValid(sys, cfg, steps[0]);
      GrantedBy(sys, steps[0], client) + Granted(Apply(sys, cfg, steps[0]), cfg, steps[1..], client)
  }

  /** Burst plus accrual, summed over every bucket ever created for the client. */
  function Allowance(pool: seq<Slot>, client: string, now: int): real {
    if pool == [] then 0.0
    else
      var slot := pool[|pool| - 1];
      Allowance(pool[..|pool| - 1], client, now)
      + (if slot.owner == client then slot.params.capacity as real + Gain(slot.params, now - slot.born) else 0.0)
  }

  function AdmittedFor(pool: seq<Slot>, client: string): int {
    if pool == [] then 0
    else
      var slot := pool[|pool| - 1];
      AdmittedFor(pool[..|pool| - 1], client) + (if slot.owner == client then slot.admitted else 0)
  }

  lemma {:induction false} AdmittedAfterUpdate(pool: seq<Slot>, id: nat, slot: Slot, client: string)
    requires id < |pool| && slot.owner == pool[id].owner
    ensures AdmittedFor(pool[id := slot], client)
         == AdmittedFor(pool, client) + (if slot.owner == client then slot.admitted - pool[id].admitted else 0)
  {
    var last := |pool| - 1;
    if id == last {
      assert pool[id := slot][..last] == pool[..last];
    } else {
      AdmittedAfterUpdate(pool[..last], id, slot, client);
      assert pool[id := slot][..last] == pool[..last][id := slot];
    }
  }

  lemma StepAccounts(sys: System, cfg: Config, step: Step, client: string)
    requires sys.Valid() && cfg.Valid()
    ensures AdmittedFor(Apply(sys, cfg, step).pool, client)
         == AdmittedFor(sys.pool, client) + GrantedBy(sys, step, client)
  {
    var pool' := Apply(sys, cfg, step).pool;
    if pool' != sys.pool {
      if |pool'| == |sys.pool| {
        var id := if step.ConsumeFrom? then step.id else sys.cells[step.client].id;
        AdmittedAfterUpdate(sys.pool, id, pool'[id], client);
      } else {
        assert pool'[..|pool'| - 1] == sys.pool;
      }
    }
  }

  lemma {:induction false} RunAccounts(sys: System, cfg: Config, steps: seq<Step>, client: string)
    requires sys.Valid() && cfg.Valid()
    ensures AdmittedFor(Ran(sys, cfg, steps).pool, client)
         == AdmittedFor(sys.pool, client) + Granted(sys, cfg, steps, client)
    decreases |steps|
  {
    if steps != [] {
      StepAccounts(sys, cfg, steps[0], client);
      ApplyKeepsValid(sys, cfg, steps[0]);
      RunAccounts(Apply(sys, cfg, steps[0]), cfg, steps[1..], client);
    }
  }

  predicate NoLaterThan(pool: seq<Slot>, now: int) {
    forall i :: 0 <= i < |pool| ==> pool[i].bucket.last <= now
  }

  lemma {:induction false} RunStaysEarlier(sys: System, cfg: Config, steps: seq<Step>, now: int)
    requires sys.Valid() && cfg.Valid() && NoLaterThan(sys.pool, now)
    requires forall i :: 0 <= i < |steps| ==> steps[i].at <= now
    ensures NoLaterThan(Ran(sys, cfg, steps).pool, now)
    decreases |steps|
  {
    if steps != [] {
      ApplyKeepsValid(sys, cfg, steps[0]);
      assert steps[0].at <= now;
      RunStaysEarlier(Apply(sys, cfg, steps[0]), cfg, steps[1..], now);
    }
  }

  lemma {:induction false} AdmittedWithinAllowance(pool: seq<Slot>, client: string, now: int)
    requires forall i :: 0 <= i < |pool| ==> pool[i].Valid()
    requires NoLaterThan(pool, now)
    ensures AdmittedFor(pool, client) as real <= Allowance(pool, client, now)
  {
    if pool != [] {
      var slot := pool[|pool| - 1];
      AdmittedWithinAllowance(pool[..|pool| - 1], client, now);
      assert slot.Valid() && slot.bucket.last <= now;
      GainMonotone(slot.params, slot.bucket.last - slot.born, now - slot.born);
    }
  }

  /** Under every interleaving, from an empty limiter, a client is handed out at most the
      sum, over all buckets ever created for it, of burst plus rate * age. */
  lemma AdmissionsBoundedAcrossGenerations(cfg: Config, steps: seq<Step>, client: string, now: int)
    requires cfg.Valid()
    requires forall i :: 0 <= i < |steps| ==> steps[i].at <= now
    ensures Granted(Empty, cfg, steps, client) as real
         <= Allowance(Ran(Empty, cfg, steps).pool, client, now)
  {
    RunAccounts(Empty, cfg, steps, client);
    RunStaysEarlier(Empty, cfg, steps, now);
    AdmittedWithinAllowance(Ran(Empty, cfg, steps).pool, client, now);
  }

  /** The index never leads two clients to one bucket, nor a client to another's bucket. */
  lemma IndexIsInjective(cfg: Config, steps: seq<Step>, a: string, b: string)
    requires cfg.Valid()
    requires a in Ran(Empty, cfg, steps).cells && b in Ran(Empty, cfg, steps).cells
    ensures Ran(Empty, cfg, steps).cells[a].id == Ran(Empty, cfg, steps).cells[b].id <==> a == b
  {
  }
}
