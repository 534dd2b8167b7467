/** What requests are let through: the middleware, the memo and either limiter together decide
    like one token bucket with the client's limit. */
module RequestAdmission {
  import opened TokenBucketModel
  import opened TokenBuckets
  import opened BucketConformance
  import C = BucketConformance
  import opened LimiterOps
  import opened LimitSync
  import M = MemoryLimiterModel
  import Mem = IdleEviction
  import R = RedisLimiterModel
  import Red = RedisExpiry

  // ----- the client's bucket in either backend -----

  function ParamsOf(b: Backend, burst: int, rps: real): Params {
    if b.Memory? then NanoParams(burst, rps) else R.Limit(burst, rps).P()
  }

  function Stored(b: Backend, client: string): Option<Bucket>
    requires b.Valid()
  {
    match b
    case Memory(sys, _) => var v := Mem.ViewOf(sys, client); if v.Present? then Some(v.bucket) else None
    case Redis(db, red) => Red.ViewOf(db, red, client).bucket
  }

  /** From `now` on the client's bucket, or the full one it would be given, is refilled to
      what this one is. */
  predicate Tracks(b: Backend, client: string, p: Params, spec: Bucket, now: int)
    requires b.Valid()
  {
    var stored := Stored(b, client);
    && spec.Within(p) && spec.last <= now
    && (stored.Some? ==> stored.value.Within(p) && stored.value.last <= now)
    && Refill(p, spec, now) == (if stored.Some? then Refill(p, stored.value, now) else Full(p, now))
  }

  lemma TracksLater(b: Backend, client: string, p: Params, spec: Bucket, t1: int, t2: int)
    requires b.Valid() && p.Valid() && Tracks(b, client, p, spec, t1) && t1 <= t2
    ensures Tracks(b, client, p, spec, t2)
  {
    RefillComposes(p, spec, t1, t2);
    var before := if Stored(b, client).Some? then Stored(b, client).value else Full(p, t1);
    RefillComposes(p, before, t1, t2);
    GainMonotone(p, 0, t2 - t1);
    assert Gain(p, 0) == 0.0;
  }

  lemma TakeFromMemory(sys: M.System, mem: M.Config, client: string, burst: int, rps: real, spec: Bucket, now: int)
    requires Memory(sys, mem).Valid() && Memory(sys, mem).Enforces(client, burst, rps) && burst >= 1 && rps > 0.0
    requires Tracks(Memory(sys, mem), client, NanoParams(burst, rps), spec, now)
    ensures var p, take := NanoParams(burst, rps), AllowN(client, 1, now);
      && Mem.Reply(sys, mem, take) == Verdict(Grants(p, spec, now, 1))
      && Stored(Memory(Mem.Apply(sys, mem, take), mem), client) == Some(Taken(p, spec, now, 1))
  {
    var take := AllowN(client, 1, now);
    Mem.ViewAfter(sys, mem, take, client);
    Mem.ReplyFromView(sys, mem, take);
  }

  lemma TakeFromRedis(db: R.Database, red: R.Config, client: string, burst: int, rps: real, spec: Bucket, now: int)
    requires Redis(db, red).Valid() && Redis(db, red).Enforces(client, burst, rps) && burst >= 1 && rps > 0.0
    requires Tracks(Redis(db, red), client, R.Limit(burst, rps).P(), spec, now)
    ensures var p, take := R.Limit(burst, rps).P(), AllowN(client, 1, now);
      && Red.Reply(db, red, take) == Verdict(Grants(p, spec, now, 1))
      && Stored(Redis(Red.Apply(db, red, take), red), client) == Some(Taken(p, spec, now, 1))
  {
    var p, take, stored := R.Limit(burst, rps).P(), AllowN(client, 1, now), Red.ViewOf(db, red, client).bucket;
    Red.ViewAfterOwnCall(db, red, take, client);
    assert Gain(p, 0) == 0.0;
    if stored.Some? {
      GainMonotone(p, 0, now - stored.value.last);
    }
    assert R.Current(p, stored, now) == Refill(p, spec, now);
  }

  /** Taking one token: the limiter grants it exactly if the bucket does, and stores what is
      left in it. */
  lemma TakeDecides(b: Backend, client: string, burst: int, rps: real, spec: Bucket, now: int)
    requires b.Valid() && b.Enforces(client, burst, rps) && burst >= 1 && rps > 0.0
    requires Tracks(b, client, ParamsOf(b, burst, rps), spec, now)
    ensures var p, take := ParamsOf(b, burst, rps), AllowN(client, 1, now);
      && b.Answers(take) == Verdict(Grants(p, spec, now, 1))
      && Stored(b.After(take), client) == Some(Taken(p, spec, now, 1))
  {
    match b
    case Memory(sys, mem) => TakeFromMemory(sys, mem, client, burst, rps, spec, now);
    case Redis(db, red) => TakeFromRedis(db, red, client, burst, rps, spec, now);
  }

  lemma LookKeepsTracking(b: Backend, client: string, burst: int, rps: real, spec: Bucket, now: int)
    requires b.Valid() && b.Enforces(client, burst, rps) && burst >= 1 && rps > 0.0
    requires Tracks(b, client, ParamsOf(b, burst, rps), spec, now)
    ensures Tracks(b.After(Tokens(client, now)), client, ParamsOf(b, burst, rps), spec, now)
  {
    var p := ParamsOf(b, burst, rps);
    match b
    case Memory(sys, mem) =>
      Mem.ViewAfter(sys, mem, Tokens(client, now), client);
      if Stored(b, client).Some? {
        RefillStaysWithin(p, Stored(b, client).value, now);
        RefillComposes(p, Stored(b, client).value, now, now);
      }
    case Redis(db, red) => Red.ViewAfterOwnCall(db, red, Tokens(client, now), client);
  }

  // ----- runs in which the bucket is not dropped -----

  /** The event neither drops the client's bucket nor takes from it behind the middleware. */
  predicate Spares(w: World, client: string, e: Event)
    requires w.backend.Valid()
  {
    e.Direct? ==>
      && !w.backend.Forgets(client, e.op)
      && (e.op.Cleanup? || e.op.Expire? || e.op.client != client)
      && (w.backend.Redis? && e.op.Expire? && e.op.key == w.backend.red.Key(client)
          ==> !R.Due(w.backend.db, e.op.key, e.op.at))
  }

  lemma OthersCallKeepsStored(b: Backend, client: string, op: Op)
    requires b.Valid() && Spares(World(map[], b), client, Direct(op))
    requires op.Cleanup? || op.Expire? || b.Apart(op.client, client)
    ensures Stored(b.After(op), client) == Stored(b, client)
  {
    match b
    case Memory(sys, mem) => Mem.ViewAfter(sys, mem, op, client);
    case Redis(db, red) =>
      Red.OwnKeysDiffer(red, client);
      if !op.Expire? && !op.Cleanup? {
        Red.ViewAfterOthersCall(db, red, op, op.client, client);
      }
  }

  lemma OthersRequestKeepsStored(w: World, default: int, client: string, e: Event)
    requires w.backend.Valid() && e.Request? && e.client != client && Ordinary(w.backend, default, client, e)
    ensures Stored(Step(w, default, e).backend, client) == Stored(w.backend, client)
  {
    var s := Synced(w, default, e.client, e.limit, e.works, e.at);
    if MustPush(w.synced, default, e.client, e.limit) && e.works {
      OthersCallKeepsStored(w.backend, client, SetLimit(e.client, e.limit, e.limit as real, e.at));
    }
    if !e.fails {
      OthersCallKeepsStored(s.backend, client, AllowN(e.client, 1, e.at));
      OthersCallKeepsStored(s.backend.After(AllowN(e.client, 1, e.at)), client, Tokens(e.client, e.at));
    }
  }

  function TimeOf(e: Event): int {
    if e.Request? then e.at else e.op.at
  }

  /** Events in clock order that spare the client's bucket. */
  predicate Undisturbed(w: World, default: int, client: string, es: seq<Event>, now: int)
    requires w.backend.Valid()
    decreases |es|
  {
    es != [] ==>
      && now <= TimeOf(es[0]) && Ordinary(w.backend, default, client, es[0]) && Spares(w, client, es[0])
      && Undisturbed(Step(w, default, es[0]), default, client, es[1..], TimeOf(es[0]))
  }

  /** The client's requests whose take the limiter decides. */
  predicate IsDecided(client: string, e: Event) {
    e.Request? && e.client == client && !e.fails
  }

  /** Whether each of them is let through. */
  function Decisions(w: World, default: int, client: string, es: seq<Event>): seq<bool>
    requires w.backend.Valid()
    decreases |es|
  {
    if es == [] then []
    else
      (if IsDecided(client, es[0]) then
         var b := Synced(w, default, client, es[0].limit, es[0].works, es[0].at).backend;
         [b.Answers(AllowN(client, 1, es[0].at)) == Verdict(true)]
       else [])
      + Decisions(Step(w, default, es[0]), default, client, es[1..])
  }

  /** What they ask for: one token each. */
  function Asked(client: string, es: seq<Event>): seq<C.Request> {
    if es == [] then []
    else (if IsDecided(client, es[0]) then [C.Request(es[0].at, 1)] else []) + Asked(client, es[1..])
  }

  /** The client's requests resolve to this limit, which the memo has if it is its own. */
  predicate Settled(w: World, default: int, client: string, limit: int) {
    limit == default || (client in w.synced && w.synced[client] == limit)
  }

  predicate AllResolveTo(client: string, limit: int, es: seq<Event>) {
    forall i :: 0 <= i < |es| ==> es[i].Request? && es[i].client == client ==> es[i].limit == limit
  }

  /** One event: a decided request is decided by the bucket, and the bucket tracks on. */
  lemma StepDecides(w: World, default: int, client: string, limit: int, burst: int, rps: real, spec: Bucket, e: Event, now: int)
    requires w.backend.Valid() && w.backend.Enforces(client, burst, rps) && burst >= 1 && rps > 0.0
    requires Settled(w, default, client, limit) && (e.Request? && e.client == client ==> e.limit == limit)
    requires Ordinary(w.backend, default, client, e) && Spares(w, client, e) && now <= TimeOf(e)
    requires Tracks(w.backend, client, ParamsOf(w.backend, burst, rps), spec, now)
    ensures var w', p, at := Step(w, default, e), ParamsOf(w.backend, burst, rps), TimeOf(e);
      && w'.backend.Enforces(client, burst, rps) && Settled(w', default, client, limit)
      && Tracks(w'.backend, client, p, if IsDecided(client, e) then Taken(p, spec, at, 1) else spec, at)
      && (IsDecided(client, e) ==>
            (w.backend.Answers(AllowN(client, 1, at)) == Verdict(true) <==> Grants(p, spec, at, 1)))
  {
    var at, p := TimeOf(e), ParamsOf(w.backend, burst, rps);
    TracksLater(w.backend, client, p, spec, now, at);
    match e
    case Direct(op) =>
      CallKeepsLimit(w.backend, client, op, burst, rps);
      OthersCallKeepsStored(w.backend, client, op);
    case Request(c, _, _, fails, _) =>
      RequestKeepsLimit(w, default, client, e, burst, rps);
      if c != client {
        OthersRequestKeepsStored(w, default, client, e);
      } else if !fails {
        OwnRequestDecides(w, default, client, burst, rps, spec, e);
      }
  }

  lemma OwnRequestDecides(w: World, default: int, client: string, burst: int, rps: real, spec: Bucket, e: Event)
    requires w.backend.Valid() && w.backend.Enforces(client, burst, rps) && burst >= 1 && rps > 0.0
    requires IsDecided(client, e) && !MustPush(w.synced, default, client, e.limit)
    requires Tracks(w.backend, client, ParamsOf(w.backend, burst, rps), spec, e.at)
    ensures var p := ParamsOf(w.backend, burst, rps);
      && Tracks(Step(w, default, e).backend, client, p, Taken(p, spec, e.at, 1), e.at)
      && (w.backend.Answers(AllowN(client, 1, e.at)) == Verdict(true) <==> Grants(p, spec, e.at, 1))
  {
    var p, b, take := ParamsOf(w.backend, burst, rps), w.backend, AllowN(client, 1, e.at);
    TakeDecides(b, client, burst, rps, spec, e.at);
    TakenStaysWithin(p, spec, e.at, 1);
    CallKeepsLimit(b, client, take, burst, rps);
    assert Tracks(b.After(take), client, p, Taken(p, spec, e.at, 1), e.at);
    LookKeepsTracking(b.After(take), client, burst, rps, Taken(p, spec, e.at, 1), e.at);
  }

  lemma {:induction false} AfterFirst(p: Params, b: Bucket, r: C.Request, rs: seq<C.Request>, k: nat)
    requires k <= |rs|
    ensures After(p, b, [r] + rs, k + 1) == After(p, Taken(p, b, r.at, r.n), rs, k)
  {
    if k == 0 {
      assert After(p, b, [r] + rs, 0) == b;
    } else {
      AfterFirst(p, b, r, rs, k - 1);
      assert ([r] + rs)[k] == rs[k - 1];
    }
  }

  lemma DecisionsUnfold(w: World, default: int, client: string, es: seq<Event>)
    requires w.backend.Valid() && es != []
    requires IsDecided(client, es[0]) ==> !MustPush(w.synced, default, client, es[0].limit)
    ensures var e, rest := es[0], Decisions(Step(w, default, es[0]), default, client, es[1..]);
      if IsDecided(client, e) then
        && Asked(client, es) == [C.Request(e.at, 1)] + Asked(client, es[1..])
        && Decisions(w, default, client, es) == [w.backend.Answers(AllowN(client, 1, e.at)) == Verdict(true)] + rest
      else Asked(client, es) == Asked(client, es[1..]) && Decisions(w, default, client, es) == rest
  {
  }

  /** The decisions are those of a bucket that starts as `spec`. */
  predicate BucketDecides(p: Params, spec: Bucket, rs: seq<C.Request>, decisions: seq<bool>) {
    && |decisions| == |rs|
    && forall k :: 0 <= k < |rs| ==> rs[k].n == 1 && (decisions[k] <==> Admitted(p, spec, rs, k))
  }

  lemma OneDecisionEarlier(p: Params, spec: Bucket, at: int, rs: seq<C.Request>, decisions: seq<bool>)
    requires BucketDecides(p, Taken(p, spec, at, 1), rs, decisions)
    ensures BucketDecides(p, spec, [C.Request(at, 1)] + rs, [Grants(p, spec, at, 1)] + decisions)
  {
    var r := C.Request(at, 1);
    assert After(p, spec, [r] + rs, 0) == spec;
    forall k | 0 <= k < |rs| ensures Admitted(p, spec, [r] + rs, k + 1) <==> Admitted(p, Taken(p, spec, at, 1), rs, k) {
      AfterFirst(p, spec, r, rs, k);
      assert ([r] + rs)[k + 1] == rs[k];
    }
    forall k | 0 <= k < |rs| + 1
      ensures ([r] + rs)[k].n == 1
      ensures ([Grants(p, spec, at, 1)] + decisions)[k] <==> Admitted(p, spec, [r] + rs, k)
    {
      if k > 0 {
        assert rs[k - 1].n == 1 && (decisions[k - 1] <==> Admitted(p, Taken(p, spec, at, 1), rs, k - 1));
        assert Admitted(p, spec, [r] + rs, k - 1 + 1) <==> Admitted(p, Taken(p, spec, at, 1), rs, k - 1);
      }
    }
  }

  /** The decisions of a run are those of one bucket on the client's requests alone, whatever
      the other clients do. */
  lemma {:induction false} DecidesLikeABucket(w: World, default: int, client: string, limit: int, burst: int, rps: real,
                                              spec: Bucket, es: seq<Event>, now: int)
    requires w.backend.Valid() && w.backend.Enforces(client, burst, rps) && burst >= 1 && rps > 0.0
    requires Settled(w, default, client, limit) && AllResolveTo(client, limit, es)
    requires Undisturbed(w, default, client, es, now)
    requires Tracks(w.backend, client, ParamsOf(w.backend, burst, rps), spec, now)
    ensures BucketDecides(ParamsOf(w.backend, burst, rps), spec, Asked(client, es), Decisions(w, default, client, es))
    decreases |es|
  {
    if es != [] {
      var e, w', p := es[0], Step(w, default, es[0]), ParamsOf(w.backend, burst, rps);
      StepDecides(w, default, client, limit, burst, rps, spec, e, now);
      DecisionsUnfold(w, default, client, es);
      if IsDecided(client, e) {
        DecidesLikeABucket(w', default, client, limit, burst, rps, Taken(p, spec, e.at, 1), es[1..], e.at);
        OneDecisionEarlier(p, spec, e.at, Asked(client, es[1..]), Decisions(w', default, client, es[1..]));
      } else {
        DecidesLikeABucket(w', default, client, limit, burst, rps, spec, es[1..], TimeOf(e));
      }
    }
  }

  // ----- a client's requests from its first on -----

  /** Requests let through among those from j on and before k. */
  function Allowed(decisions: seq<bool>, j: nat, k: nat): nat
    requires k <= |decisions|
  {
    if k <= j then 0 else Allowed(decisions, j, k - 1) + (if decisions[k - 1] then 1 else 0)
  }

  /** One more than were let through from j to k keeps within the burst and what the rate, per
      second, makes meanwhile, by a clock in nanoseconds. */
  predicate FitsNanos(burst: int, rps: real, rs: seq<C.Request>, decisions: seq<bool>, j: nat, k: nat)
    requires j <= k < |rs| == |decisions|
  {
    (Allowed(decisions, j, k) + 1) as real <= burst as real + rps * ((rs[k].at - rs[j].at) as real / 1_000_000_000.0)
  }

  /** The same by a clock in milliseconds. */
  predicate FitsMillis(burst: int, rps: real, rs: seq<C.Request>, decisions: seq<bool>, j: nat, k: nat)
    requires j <= k < |rs| == |decisions|
  {
    (Allowed(decisions, j, k) + 1) as real <= burst as real + rps * (rs[k].at - rs[j].at) as real / 1_000.0
  }

  /** The in-memory limiter's clock is in nanoseconds, that of Redis in milliseconds. */
  predicate WindowFits(b: Backend, burst: int, rps: real, rs: seq<C.Request>, decisions: seq<bool>, j: nat, k: nat)
    requires j <= k < |rs| == |decisions|
  {
    if b.Memory? then FitsNanos(burst, rps, rs, decisions, j, k) else FitsMillis(burst, rps, rs, decisions, j, k)
  }

  lemma {:induction false} SpentIsAllowed(p: Params, spec: Bucket, rs: seq<C.Request>, decisions: seq<bool>, j: nat, k: nat)
    requires BucketDecides(p, spec, rs, decisions) && k <= |rs|
    ensures Spent(p, spec, rs, j, k) == Allowed(decisions, j, k)
  {
    if k > j {
      SpentIsAllowed(p, spec, rs, decisions, j, k - 1);
      assert rs[k - 1].n == 1 && (decisions[k - 1] <==> Admitted(p, spec, rs, k - 1));
    }
  }

  lemma FitsIffNanos(p: Params, burst: int, rps: real, spec: Bucket, rs: seq<C.Request>, decisions: seq<bool>,
                     j: nat, k: nat, made: real)
    requires p.capacity == burst && j <= k < |rs| == |decisions| && rs[k].n == 1
    requires Spent(p, spec, rs, j, k) == Allowed(decisions, j, k)
    requires made == Gain(p, rs[k].at - rs[j].at)
    requires made == rps * ((rs[k].at - rs[j].at) as real / 1_000_000_000.0)
    ensures Fits(p, spec, rs, j, k) <==> FitsNanos(burst, rps, rs, decisions, j, k)
  {
  }

  lemma FitsIffMillis(p: Params, burst: int, rps: real, spec: Bucket, rs: seq<C.Request>, decisions: seq<bool>,
                      j: nat, k: nat, made: real)
    requires p.capacity == burst && j <= k < |rs| == |decisions| && rs[k].n == 1
    requires Spent(p, spec, rs, j, k) == Allowed(decisions, j, k)
    requires made == Gain(p, rs[k].at - rs[j].at)
    requires made == rps * (rs[k].at - rs[j].at) as real / 1_000.0
    ensures Fits(p, spec, rs, j, k) <==> FitsMillis(burst, rps, rs, decisions, j, k)
  {
  }

  lemma FitsIffWindowFits(b: Backend, p: Params, burst: int, rps: real, spec: Bucket, rs: seq<C.Request>,
                          decisions: seq<bool>, j: nat, k: nat)
    requires p == ParamsOf(b, burst, rps) && j <= k < |rs| == |decisions| && rs[k].n == 1
    requires Spent(p, spec, rs, j, k) == Allowed(decisions, j, k)
    ensures Fits(p, spec, rs, j, k) <==> WindowFits(b, burst, rps, rs, decisions, j, k)
  {
    var length := rs[k].at - rs[j].at;
    if b.Memory? {
      GainPerSecond(burst, rps, length);
      FitsIffNanos(p, burst, rps, spec, rs, decisions, j, k, rps * (length as real / 1_000_000_000.0));
    } else {
      R.GainPerSecond(R.Limit(burst, rps), length);
      FitsIffMillis(p, burst, rps, spec, rs, decisions, j, k, rps * length as real / 1_000.0);
    }
  }

  lemma {:induction false} AskedInOrder(w: World, default: int, client: string, es: seq<Event>, now: int)
    requires w.backend.Valid() && Undisturbed(w, default, client, es, now)
    ensures Monotone(now, Asked(client, es))
    decreases |es|
  {
    if es != [] {
      AskedInOrder(Step(w, default, es[0]), default, client, es[1..], TimeOf(es[0]));
    }
  }

  /** The burst and rate of a client whose requests resolve to this limit. */
  function BurstOf(b: Backend, default: int, limit: int): int {
    if limit == default then b.DefaultBurst() else limit
  }

  function RateOf(b: Backend, default: int, limit: int): real {
    if limit == default then b.DefaultRate() else limit as real
  }

  /** A client's requests from its first on, whose push, if it needs one, works; they all
      resolve to the same limit, and until the last the bucket is not dropped. */
  predicate FreshRun(w: World, default: int, client: string, limit: int, es: seq<Event>)
    requires w.backend.Valid()
  {
    && Unmet(w.backend, client) && client !in w.synced && (limit == default || limit > 0)
    && es != [] && IsDecided(client, es[0]) && (limit == default || es[0].works)
    && AllResolveTo(client, limit, es) && Undisturbed(w, default, client, es, es[0].at)
  }

  lemma FreshStart(w: World, default: int, client: string, limit: int, now: int)
    requires w.backend.Valid() && Unmet(w.backend, client) && client !in w.synced && (limit == default || limit > 0)
    ensures var s, burst, rps :=
        Synced(w, default, client, limit, true, now), BurstOf(w.backend, default, limit), RateOf(w.backend, default, limit);
      var p := ParamsOf(w.backend, burst, rps);
      && p.Valid() && burst >= 1 && rps > 0.0
      && s.backend.Valid() && (s.backend.Memory? <==> w.backend.Memory?) && ParamsOf(s.backend, burst, rps) == p
      && s.backend.Enforces(client, burst, rps) && Settled(s, default, client, limit)
      && Tracks(s.backend, client, p, Full(p, now), now)
  {
    var push := SetLimit(client, limit, limit as real, now);
    if limit != default {
      PushIsEnforced(w.backend, client, limit, now);
      match w.backend
      case Memory(sys, mem) => Mem.ViewAfter(sys, mem, push, client);
      case Redis(db, red) => Red.ViewAfterOwnCall(db, red, push, client);
    }
  }

  lemma FreshRunDecides(w: World, default: int, client: string, limit: int, es: seq<Event>)
    requires w.backend.Valid() && FreshRun(w, default, client, limit, es)
    ensures var p := ParamsOf(w.backend, BurstOf(w.backend, default, limit), RateOf(w.backend, default, limit));
      p.Valid() && BucketDecides(p, Full(p, es[0].at), Asked(client, es), Decisions(w, default, client, es))
  {
    var e := es[0];
    var burst, rps := BurstOf(w.backend, default, limit), RateOf(w.backend, default, limit);
    var s := Synced(w, default, client, limit, true, e.at);
    FreshStart(w, default, client, limit, e.at);
    assert Synced(s, default, client, limit, true, e.at) == s;
    assert Step(s, default, e) == Step(w, default, e);
    assert Undisturbed(s, default, client, es, e.at);
    assert Decisions(s, default, client, es) == Decisions(w, default, client, es);
    DecidesLikeABucket(s, default, client, limit, burst, rps, Full(ParamsOf(w.backend, burst, rps), e.at), es, e.at);
  }

  /** Exactly the requests pass that keep every window of the client's requests, from its first
      on, within its burst and rate: through resolving, pushing, memo and either limiter, and
      whatever other clients do. */
  lemma RequestPassesIff(w: World, default: int, client: string, limit: int, es: seq<Event>, k: nat)
    requires w.backend.Valid() && FreshRun(w, default, client, limit, es) && k < |Asked(client, es)|
    ensures |Decisions(w, default, client, es)| == |Asked(client, es)|
    ensures var rs, decisions := Asked(client, es), Decisions(w, default, client, es);
      var burst, rps := BurstOf(w.backend, default, limit), RateOf(w.backend, default, limit);
      decisions[k] <==> forall j :: 0 <= j <= k ==> WindowFits(w.backend, burst, rps, rs, decisions, j, k)
  {
    var rs, decisions := Asked(client, es), Decisions(w, default, client, es);
    var burst, rps := BurstOf(w.backend, default, limit), RateOf(w.backend, default, limit);
    var p := ParamsOf(w.backend, burst, rps);
    FreshRunDecides(w, default, client, limit, es);
    AskedInOrder(w, default, client, es, es[0].at);
    assert rs[k].n == 1 && (decisions[k] <==> Admitted(p, Full(p, es[0].at), rs, k));
    AdmitsIffEveryWindowFits(p, Full(p, es[0].at), rs, k);
    forall j | 0 <= j <= k
      ensures Fits(p, Full(p, es[0].at), rs, j, k) <==> WindowFits(w.backend, burst, rps, rs, decisions, j, k)
    {
      SpentIsAllowed(p, Full(p, es[0].at), rs, decisions, j, k);
      FitsIffWindowFits(w.backend, p, burst, rps, Full(p, es[0].at), rs, decisions, j, k);
    }
  }

  lemma {:induction false} AllowedShrinks(decisions: seq<bool>, j: nat, k: nat)
    requires k <= |decisions|
    ensures Allowed(decisions, j, k) <= Allowed(decisions, 0, k)
  {
    if k > j {
      AllowedShrinks(decisions, j, k - 1);
    }
  }

  lemma FitsAtOnceIff(b: Backend, burst: int, rps: real, rs: seq<C.Request>, decisions: seq<bool>, j: nat, k: nat)
    requires j <= k < |rs| == |decisions| && rs[j].at == rs[k].at
    ensures WindowFits(b, burst, rps, rs, decisions, j, k) <==> Allowed(decisions, j, k) + 1 <= burst
  {
    assert rps * (0 as real / 1_000_000_000.0) == 0.0 && rps * 0 as real / 1_000.0 == 0.0;
  }

  lemma {:induction false} FirstBurstAllowed(burst: int, decisions: seq<bool>, k: nat)
    requires burst >= 1 && k <= |decisions|
    requires forall i: nat :: i < |decisions| ==> (decisions[i] <==> Allowed(decisions, 0, i) + 1 <= burst)
    ensures Allowed(decisions, 0, k) == if k < burst then k else burst
  {
    if k > 0 {
      FirstBurstAllowed(burst, decisions, k - 1);
    }
  }

  /** So of requests made at one instant the first `burst` pass and no other. */
  lemma AtOnceTheBurstPasses(w: World, default: int, client: string, limit: int, es: seq<Event>, k: nat)
    requires w.backend.Valid() && FreshRun(w, default, client, limit, es) && k < |Asked(client, es)|
    requires forall i :: 0 <= i < |Asked(client, es)| ==> Asked(client, es)[i].at == es[0].at
    ensures |Decisions(w, default, client, es)| == |Asked(client, es)|
    ensures Decisions(w, default, client, es)[k] <==> k < BurstOf(w.backend, default, limit)
  {
    var rs, decisions := Asked(client, es), Decisions(w, default, client, es);
    var burst, rps := BurstOf(w.backend, default, limit), RateOf(w.backend, default, limit);
    FreshStart(w, default, client, limit, es[0].at);
    RequestPassesIff(w, default, client, limit, es, k);
    forall i: nat | i < |decisions| ensures decisions[i] <==> Allowed(decisions, 0, i) + 1 <= burst {
      AtOnceOneDecision(w, default, client, limit, es, i);
    }
    FirstBurstAllowed(burst, decisions, k);
  }

  lemma AtOnceOneDecision(w: World, default: int, client: string, limit: int, es: seq<Event>, k: nat)
    requires w.backend.Valid() && FreshRun(w, default, client, limit, es) && k < |Asked(client, es)|
    requires forall i :: 0 <= i < |Asked(client, es)| ==> Asked(client, es)[i].at == es[0].at
    ensures |Decisions(w, default, client, es)| == |Asked(client, es)|
    ensures var decisions := Decisions(w, default, client, es);
      decisions[k] <==> Allowed(decisions, 0, k) + 1 <= BurstOf(w.backend, default, limit)
  {
    var rs, decisions := Asked(client, es), Decisions(w, default, client, es);
    var burst, rps := BurstOf(w.backend, default, limit), RateOf(w.backend, default, limit);
    RequestPassesIff(w, default, client, limit, es, k);
    forall j | 0 <= j <= k
      ensures WindowFits(w.backend, burst, rps, rs, decisions, j, k) <==> Allowed(decisions, j, k) + 1 <= burst
      ensures Allowed(decisions, j, k) <= Allowed(decisions, 0, k)
    {
      assert rs[j].at == es[0].at && rs[k].at == es[0].at;
      FitsAtOnceIff(w.backend, burst, rps, rs, decisions, j, k);
      AllowedShrinks(decisions, j, k);
    }
    assert WindowFits(w.backend, burst, rps, rs, decisions, 0, k) <==> Allowed(decisions, 0, k) + 1 <= burst;
  }
}
