/** The middleware's memo of the limits it has pushed to the limiter, and what the limiter
    really enforces. */
module LimitSync {
  import opened TokenBuckets
  import opened LimiterOps
  import opened CachedStores
  import opened ClientLimits
  import M = MemoryLimiterModel
  import Mem = IdleEviction
  import R = RedisLimiterModel
  import Red = RedisExpiry

  /** The limiter behind the middleware: either backend. */
  datatype Backend =
    | Memory(sys: M.System, mem: M.Config)
    | Redis(db: R.Database, red: R.Config)
  {
    predicate Valid() {
      match this
      case Memory(sys, mem) => sys.Valid() && mem.Valid()
      case Redis(db, red) => R.ValidDb(db) && red.default.Valid()
    }

    function After(op: Op): (b: Backend)
      requires Valid()
      ensures b.Valid()
    {
      match this
      case Memory(sys, mem) => Memory(Mem.Apply(sys, mem, op), mem)
      case Redis(db, red) => Redis(Red.Apply(db, red, op), red)
    }

    function Answers(op: Op): Answer
      requires Valid()
    {
      match this
      case Memory(sys, mem) => Mem.Reply(sys, mem, op)
      case Redis(db, red) => Red.Reply(db, red, op)
    }

    function DefaultBurst(): int {
      if Memory? then mem.burst else red.default.burst
    }

    function DefaultRate(): real {
      if Memory? then mem.rate else red.default.rps
    }

    predicate IsDefault(burst: int, rps: real) {
      burst == DefaultBurst() && rps == DefaultRate()
    }

    /** The limit the client is held to: in memory that of its bucket, or of the one it would
        be given; in Redis its override, which must never expire, or the default. */
    predicate Enforces(client: string, burst: int, rps: real)
      requires Valid()
    {
      match this
      case Memory(sys, mem) =>
        var v := Mem.ViewOf(sys, client);
        (if v.Present? then v.params else mem.P()) == NanoParams(burst, rps)
      case Redis(db, red) =>
        var v := Red.ViewOf(db, red, client);
        Red.EffectiveOf(red, v) == R.Limit(burst, rps) && v.overExpiresAt.None?
    }

    predicate EnforcesDefault(client: string)
      requires Valid()
    {
      Enforces(client, DefaultBurst(), DefaultRate())
    }

    /** The call drops the limit the client was given: a reset, or in memory a cleanup that
        finds the client's bucket idle. */
    predicate Forgets(client: string, op: Op)
      requires Valid()
    {
      || (op.Reset? && op.client == client)
      || (Memory? && op.Cleanup? &&
          var v := Mem.ViewOf(sys, client); v.Present? && M.Idle(mem, v.lastUsed, op.at))
    }

    /** Whether the backend keeps the two clients' state apart. */
    predicate Apart(a: string, b: string) {
      Redis? ==> Red.Separate(a, b)
    }
  }

  datatype World = World(synced: map<string, int>, backend: Backend)

  /** The limit has to be pushed: it is not the default and not the one pushed last. */
  predicate MustPush(synced: map<string, int>, default: int, client: string, limit: int) {
    limit != default && !(client in synced && synced[client] == limit)
  }

  /** Push the limit if need be; a push that fails leaves everything as it was. */
  function Synced(w: World, default: int, client: string, limit: int, works: bool, now: int): World
    requires w.backend.Valid()
  {
    if MustPush(w.synced, default, client, limit) && works then
      World(w.synced[client := limit], w.backend.After(SetLimit(client, limit, limit as real, now)))
    else w
  }

  /** One request: push, then take a token, then read what is left. If the limiter `fails`
      to take one, that is all. */
  function Handled(w: World, default: int, client: string, limit: int, works: bool, fails: bool, now: int): World
    requires w.backend.Valid()
  {
    var s := Synced(w, default, client, limit, works, now);
    if fails then s else s.(backend := s.backend.After(AllowN(client, 1, now)).After(Tokens(client, now)))
  }

  class RateLimitMiddleware {
    var synced: map<string, int>
    var backend: Backend
    const defaultLimit: int

    ghost function State(): World
      reads this
    {
      World(synced, backend)
    }

    constructor (defaultLimit: int, backend: Backend)
      requires backend.Valid()
      ensures State() == World(map[], backend) && this.defaultLimit == defaultLimit
    {
      this.synced, this.backend, this.defaultLimit := map[], backend, defaultLimit;
    }

    method SyncLimitIfNeeded(client: string, limit: int, works: bool, now: int)
      requires backend.Valid()
      modifies this
      ensures backend.Valid() && State() == Synced(old(State()), defaultLimit, client, limit, works, now)
    {
      if limit == defaultLimit {
        return;
      }
      if client !in synced || synced[client] != limit {
        if works {
          backend := backend.After(SetLimit(client, limit, limit as real, now));
          synced := synced[client := limit];
        }
      }
    }

    /** The request is passed on when the limiter fails, or when it grants a token after the
        push; `remaining` is then what it shows. */
    method Handle(client: string, hasStore: bool, key: string, reply: Reply, works: bool, fails: bool, now: int)
      returns (allowed: bool, limit: int, remaining: Option<int>)
      requires backend.Valid()
      modifies this
      ensures backend.Valid() && limit == Resolve(defaultLimit, hasStore, key, reply)
      ensures State() == Handled(old(State()), defaultLimit, client, limit, works, fails, now)
      ensures fails ==> allowed && remaining.None?
      ensures !fails ==> var s := Synced(old(State()), defaultLimit, client, limit, works, now);
        && s.backend.Valid() && remaining.Some?
        && s.backend.Answers(AllowN(client, 1, now)) == Verdict(allowed)
        && s.backend.After(AllowN(client, 1, now)).Answers(Tokens(client, now)) == Count(remaining.value)
      // a positive stored limit is the one applied; in every other case the default is, and
      // nothing is pushed
      ensures hasStore && key != "" && reply.Found? && reply.limit > 0 ==> limit == reply.limit
      ensures !(hasStore && key != "" && reply.Found? && reply.limit > 0) ==>
        && limit == defaultLimit && synced == old(synced)
        && (fails ==> backend == old(backend))
        && (!fails ==> backend == old(backend).After(AllowN(client, 1, now)).After(Tokens(client, now)))
    {
      limit := Resolve(defaultLimit, hasStore, key, reply);
      SyncLimitIfNeeded(client, limit, works, now);
      if fails {
        return true, limit, None;
      }
      allowed := backend.Answers(AllowN(client, 1, now)).ok;
      backend := backend.After(AllowN(client, 1, now));
      remaining := Some(backend.Answers(Tokens(client, now)).tokens);
      backend := backend.After(Tokens(client, now));
    }
  }

  // ----- runs -----

  /** A request that resolved to a limit, or a call made to the limiter by someone else. */
  datatype Event =
    | Request(client: string, limit: int, works: bool, fails: bool, at: int)
    | Direct(op: Op)

  /** Requests resolve to usable limits, all other clients are kept apart from this one, and
      only the middleware sets the client's limit. Anything may be reset or evicted. */
  predicate Ordinary(b: Backend, default: int, client: string, e: Event) {
    match e
    case Request(c, limit, _, _, _) => (limit == default || limit > 0) && (c == client || b.Apart(c, client))
    case Direct(op) =>
      op.Cleanup? || op.Expire? || (if op.client == client then !op.SetLimit? else b.Apart(op.client, client))
  }

  predicate AllOrdinary(b: Backend, default: int, client: string, es: seq<Event>) {
    forall i :: 0 <= i < |es| ==> Ordinary(b, default, client, es[i])
  }

  function Step(w: World, default: int, e: Event): (w': World)
    requires w.backend.Valid()
    ensures w'.backend.Valid() && (w'.backend.Redis? <==> w.backend.Redis?)
  {
    match e
    case Request(c, limit, works, fails, at) => Handled(w, default, c, limit, works, fails, at)
    case Direct(op) => w.(backend := w.backend.After(op))
  }

  /** The world after the events, oldest first. */
  function Ran(w: World, default: int, es: seq<Event>): (w': World)
    requires w.backend.Valid()
    ensures w'.backend.Valid() && (w'.backend.Redis? <==> w.backend.Redis?)
  {
    if es == [] then w else Step(Ran(w, default, es[..|es| - 1]), default, es[|es| - 1])
  }

  // ----- what a call does to the limit a client is held to -----

  lemma CallKeepsLimit(b: Backend, client: string, op: Op, burst: int, rps: real)
    requires b.Valid() && !b.Forgets(client, op)
    requires op.Cleanup? || op.Expire? || if op.client == client then !op.SetLimit? else b.Apart(op.client, client)
    ensures b.Enforces(client, burst, rps) ==> b.After(op).Enforces(client, burst, rps)
    ensures b.EnforcesDefault(client) ==> b.After(op).EnforcesDefault(client)
  {
    match b
    case Memory(sys, mem) => Mem.ViewAfter(sys, mem, op, client);
    case Redis(db, red) =>
      Red.OwnKeysDiffer(red, client);
      if Concerns(op, client) {
        Red.ViewAfterOwnCall(db, red, op, client);
      } else if !op.Expire? && !op.Cleanup? {
        Red.ViewAfterOthersCall(db, red, op, op.client, client);
      }
  }

  lemma ForgettingRestoresDefault(b: Backend, client: string, op: Op)
    requires b.Valid() && b.Forgets(client, op)
    ensures b.After(op).EnforcesDefault(client)
  {
    match b
    case Memory(sys, mem) => Mem.ViewAfter(sys, mem, op, client);
    case Redis(db, red) => Red.ViewAfterOwnCall(db, red, op, client);
  }

  lemma PushIsEnforced(b: Backend, client: string, limit: int, now: int)
    requires b.Valid() && limit > 0
    requires b.Redis? ==> Red.ViewOf(b.db, b.red, client).overExpiresAt.None?
    ensures b.After(SetLimit(client, limit, limit as real, now)).Enforces(client, limit, limit as real)
  {
    var push := SetLimit(client, limit, limit as real, now);
    match b
    case Memory(sys, mem) => Mem.ViewAfter(sys, mem, push, client);
    case Redis(db, red) => Red.ViewAfterOwnCall(db, red, push, client);
  }

  /** A request that pushes nothing for this client leaves the limit it is held to alone. */
  lemma RequestKeepsLimit(w: World, default: int, client: string, e: Event, burst: int, rps: real)
    requires w.backend.Valid() && e.Request? && Ordinary(w.backend, default, client, e)
    requires e.client == client ==> !(MustPush(w.synced, default, client, e.limit) && e.works)
    ensures w.backend.Enforces(client, burst, rps) ==> Step(w, default, e).backend.Enforces(client, burst, rps)
    ensures w.backend.EnforcesDefault(client) ==> Step(w, default, e).backend.EnforcesDefault(client)
    ensures client in Step(w, default, e).synced <==> client in w.synced
    ensures client in w.synced ==> Step(w, default, e).synced[client] == w.synced[client]
  {
    var s := Synced(w, default, e.client, e.limit, e.works, e.at);
    if MustPush(w.synced, default, e.client, e.limit) && e.works {
      CallKeepsLimit(w.backend, client, SetLimit(e.client, e.limit, e.limit as real, e.at), burst, rps);
    }
    if !e.fails {
      CallKeepsLimit(s.backend, client, AllowN(e.client, 1, e.at), burst, rps);
      CallKeepsLimit(s.backend.After(AllowN(e.client, 1, e.at)), client, Tokens(e.client, e.at), burst, rps);
    }
  }

  /** A request that does push its client's limit leaves the client held to it. */
  lemma PushingRequestIsEnforced(w: World, default: int, client: string, e: Event)
    requires w.backend.Valid() && e.Request? && e.client == client && e.limit > 0
    requires MustPush(w.synced, default, client, e.limit) && e.works
    requires w.backend.Redis? ==> Red.ViewOf(w.backend.db, w.backend.red, client).overExpiresAt.None?
    ensures Step(w, default, e).backend.Enforces(client, e.limit, e.limit as real)
    ensures client in Step(w, default, e).synced && Step(w, default, e).synced[client] == e.limit
  {
    var s := Synced(w, default, client, e.limit, true, e.at);
    PushIsEnforced(w.backend, client, e.limit, e.at);
    if !e.fails {
      CallKeepsLimit(s.backend, client, AllowN(client, 1, e.at), e.limit, e.limit as real);
      CallKeepsLimit(s.backend.After(AllowN(client, 1, e.at)), client, Tokens(client, e.at), e.limit, e.limit as real);
    }
  }

  // ----- agreement of memo and limiter -----

  /** The client is held to the limit in the memo, or to the default if there is none. */
  predicate Matches(w: World, client: string)
    requires w.backend.Valid()
  {
    if client in w.synced then w.backend.Enforces(client, w.synced[client], w.synced[client] as real)
    else w.backend.EnforcesDefault(client)
  }

  /** The event drops a limit that the memo remembers and that is not the limiter's default. */
  predicate Breaks(w: World, client: string, e: Event)
    requires w.backend.Valid()
  {
    && e.Direct? && client in w.synced && w.backend.Forgets(client, e.op)
    && !w.backend.IsDefault(w.synced[client], w.synced[client] as real)
  }

  /** The memo says the limit was pushed, and the client is held to the default. */
  predicate Forgotten(w: World, client: string, limit: int)
    requires w.backend.Valid()
  {
    client in w.synced && w.synced[client] == limit && w.backend.EnforcesDefault(client)
  }

  /** One event keeps the agreement exactly if it is not a breaking one. */
  lemma StepKeepsMatchIff(w: World, default: int, client: string, e: Event)
    requires w.backend.Valid() && Matches(w, client) && Ordinary(w.backend, default, client, e)
    ensures Matches(Step(w, default, e), client) <==> !Breaks(w, client, e)
    ensures Breaks(w, client, e) ==> Forgotten(Step(w, default, e), client, w.synced[client])
  {
    var limit := if client in w.synced then w.synced[client] else 0;
    match e
    case Direct(op) =>
      if w.backend.Forgets(client, op) {
        ForgettingRestoresDefault(w.backend, client, op);
      } else {
        CallKeepsLimit(w.backend, client, op, limit, limit as real);
      }
    case Request(c, own, works, _, _) =>
      if c == client && MustPush(w.synced, default, client, own) && works {
        PushingRequestIsEnforced(w, default, client, e);
      } else {
        RequestKeepsLimit(w, default, client, e, limit, limit as real);
      }
  }

  /** A positive stored limit that is not the default is in force after the request, if its
      push works, and is what a new client has one less of. */
  lemma StoredLimitIsApplied(w: World, default: int, client: string, key: string, stored: int, fails: bool, now: int)
    requires w.backend.Valid() && Matches(w, client) && key != "" && stored > 0 && stored != default
    ensures var limit := Resolve(default, true, key, Found(stored));
      var b := Handled(w, default, client, limit, true, fails, now).backend;
      && b.Valid() && b.Enforces(client, stored, stored as real)
      && (!fails && Unmet(w.backend, client) && client !in w.synced ==> b.Answers(Tokens(client, now)) == Count(stored - 1))
  {
    var ask := Request(client, stored, true, fails, now);
    StepKeepsMatchIff(w, default, client, ask);
    assert Step(w, default, ask) == Handled(w, default, client, stored, true, fails, now);
    if !fails && Unmet(w.backend, client) && client !in w.synced {
      FirstRequestIsHeldToOwnLimit(w, default, client, stored, now);
      LookingChangesNothing(Synced(w, default, client, stored, true, now).backend.After(AllowN(client, 1, now)), client, now);
    }
  }

  /** Looking twice at one instant shows the same. */
  lemma LookingChangesNothing(b: Backend, client: string, now: int)
    requires b.Valid()
    ensures b.After(Tokens(client, now)).Answers(Tokens(client, now)) == b.Answers(Tokens(client, now))
  {
    if b.Memory? {
      Mem.ViewAfter(b.sys, b.mem, Tokens(client, now), client);
      Mem.ReplyFromView(b.sys, b.mem, Tokens(client, now));
      Mem.ReplyFromView(Mem.Apply(b.sys, b.mem, Tokens(client, now)), b.mem, Tokens(client, now));
    }
  }

  predicate MatchesThroughout(w: World, default: int, client: string, es: seq<Event>)
    requires w.backend.Valid()
  {
    Matches(Ran(w, default, es), client)
    && (es != [] ==> MatchesThroughout(w, default, client, es[..|es| - 1]))
  }

  predicate NothingBreaks(w: World, default: int, client: string, es: seq<Event>)
    requires w.backend.Valid()
  {
    es != [] ==>
      && NothingBreaks(w, default, client, es[..|es| - 1])
      && !Breaks(Ran(w, default, es[..|es| - 1]), client, es[|es| - 1])
  }

  /** Memo agreement: on either backend, whatever pushes fail, in every sequential run a memo
      of L means the client is held to burst L and rate L, and no memo means the default,
      exactly as long as no reset or eviction drops a remembered limit. */
  lemma {:induction false} MemoIsEnforcedIff(w: World, default: int, client: string, es: seq<Event>)
    requires w.backend.Valid() && Matches(w, client) && AllOrdinary(w.backend, default, client, es)
    ensures MatchesThroughout(w, default, client, es) <==> NothingBreaks(w, default, client, es)
  {
    if es != [] {
      var before, last := es[..|es| - 1], es[|es| - 1];
      MemoIsEnforcedIff(w, default, client, before);
      assert Ordinary(w.backend, default, client, last);
      if NothingBreaks(w, default, client, before) {
        StepKeepsMatchIff(Ran(w, default, before), default, client, last);
      }
    }
  }

  /** A request whose push would be the next that works: for a limit that is neither the
      default nor the one remembered. */
  predicate Restores(default: int, client: string, limit: int, e: Event) {
    e.Request? && e.client == client && e.limit != default && e.limit != limit && e.works
  }

  lemma StepStaysForgottenIff(w: World, default: int, client: string, limit: int, e: Event)
    requires w.backend.Valid() && Forgotten(w, client, limit) && Ordinary(w.backend, default, client, e)
    ensures Forgotten(Step(w, default, e), client, limit) <==> !Restores(default, client, limit, e)
    ensures Restores(default, client, limit, e) ==> Matches(Step(w, default, e), client)
  {
    match e
    case Direct(op) =>
      if w.backend.Forgets(client, op) {
        ForgettingRestoresDefault(w.backend, client, op);
      } else {
        CallKeepsLimit(w.backend, client, op, limit, limit as real);
      }
    case Request(_, _, _, _, _) =>
      if Restores(default, client, limit, e) {
        PushingRequestIsEnforced(w, default, client, e);
      } else {
        RequestKeepsLimit(w, default, client, e, limit, limit as real);
      }
  }

  predicate ForgottenThroughout(w: World, default: int, client: string, limit: int, es: seq<Event>)
    requires w.backend.Valid()
  {
    Forgotten(Ran(w, default, es), client, limit)
    && (es != [] ==> ForgottenThroughout(w, default, client, limit, es[..|es| - 1]))
  }

  /** Once a limit is forgotten the client is held to the default exactly as long as each of
      its requests resolves to the default or to the remembered limit, or fails to push. */
  lemma {:induction false} ForgottenUntilNextLimit(w: World, default: int, client: string, limit: int, es: seq<Event>)
    requires w.backend.Valid() && Forgotten(w, client, limit) && AllOrdinary(w.backend, default, client, es)
    ensures ForgottenThroughout(w, default, client, limit, es)
       <==> forall i :: 0 <= i < |es| ==> !Restores(default, client, limit, es[i])
  {
    if es != [] {
      var before, last := es[..|es| - 1], es[|es| - 1];
      ForgottenUntilNextLimit(w, default, client, limit, before);
      assert Ordinary(w.backend, default, client, last);
      if ForgottenThroughout(w, default, client, limit, before) {
        StepStaysForgottenIff(Ran(w, default, before), default, client, limit, last);
      }
    }
  }

  /** Eviction does break the agreement: after any request of a client with a limit of its
      own, a cleanup more than two intervals later forgets that limit. */
  lemma EvictionBreaksMemo(w: World, default: int, client: string, limit: int, fails: bool, at: int)
    requires w.backend.Valid() && w.backend.Memory? && Matches(w, client)
    requires limit > 0 && limit != default && !w.backend.IsDefault(limit, limit as real)
    requires !fails || client !in w.synced || w.synced[client] != limit
    ensures var w' := Step(w, default, Request(client, limit, true, fails, at));
      var evict := Direct(Cleanup(at + 2 * w.backend.mem.interval + 1));
      && Breaks(w', client, evict) && Forgotten(Step(w', default, evict), client, limit)
  {
    var ask := Request(client, limit, true, fails, at);
    var w' := Step(w, default, ask);
    StepKeepsMatchIff(w, default, client, ask);
    HandlingUsesBucket(w, default, client, limit, fails, at);
    StepKeepsMatchIff(w', default, client, Direct(Cleanup(at + 2 * w.backend.mem.interval + 1)));
  }

  /** A request leaves its client with a bucket used at that instant, unless it neither
      pushes nor takes. */
  lemma HandlingUsesBucket(w: World, default: int, client: string, limit: int, fails: bool, now: int)
    requires w.backend.Valid() && w.backend.Memory?
    requires !fails || (limit > 0 && MustPush(w.synced, default, client, limit))
    ensures var b := Handled(w, default, client, limit, true, fails, now).backend;
      && b.Memory? && b.mem == w.backend.mem
      && Mem.ViewOf(b.sys, client).Present? && Mem.ViewOf(b.sys, client).lastUsed == now
  {
    var push, take := SetLimit(client, limit, limit as real, now), AllowN(client, 1, now);
    Mem.ViewAfter(w.backend.sys, w.backend.mem, push, client);
    var b := Synced(w, default, client, limit, true, now).backend;
    Mem.ViewAfter(b.sys, b.mem, take, client);
    Mem.ViewAfter(b.After(take).sys, b.mem, Tokens(client, now), client);
  }

  // ----- how often limits are pushed -----

  /** A request of the client that resolved to a limit of its own. */
  predicate IsOwn(default: int, client: string, e: Event) {
    e.Request? && e.client == client && e.limit != default
  }

  /** The client's resolved limits, in order, without the default. */
  function OwnLimits(default: int, client: string, es: seq<Event>): seq<int> {
    if es == [] then []
    else
      var e := es[|es| - 1];
      OwnLimits(default, client, es[..|es| - 1])
      + (if IsOwn(default, client, e) then [e.limit] else [])
  }

  /** How often the sequence changes, counting its first element. */
  function Changes(limits: seq<int>): nat {
    if limits == [] then 0
    else
      Changes(limits[..|limits| - 1])
      + (if |limits| == 1 || limits[|limits| - 1] != limits[|limits| - 2] then 1 else 0)
  }

  function Pushes(w: World, default: int, client: string, es: seq<Event>): nat
    requires w.backend.Valid()
  {
    if es == [] then 0
    else
      var before, e := es[..|es| - 1], es[|es| - 1];
      Pushes(w, default, client, before)
      + (if IsOwn(default, client, e) && MustPush(Ran(w, default, before).synced, default, client, e.limit)
         then 1 else 0)
  }

  predicate AllWork(es: seq<Event>) {
    forall i :: 0 <= i < |es| ==> es[i].Request? ==> es[i].works
  }

  predicate MemoIsLast(synced: map<string, int>, client: string, limits: seq<int>) {
    if limits == [] then client !in synced else client in synced && synced[client] == limits[|limits| - 1]
  }

  lemma OneMoreEvent(w: World, default: int, client: string, limits: seq<int>, e: Event)
    requires w.backend.Valid() && (e.Request? ==> e.works) && MemoIsLast(w.synced, client, limits)
    ensures MemoIsLast(Step(w, default, e).synced, client, if IsOwn(default, client, e) then limits + [e.limit] else limits)
    ensures IsOwn(default, client, e) ==>
      Changes(limits + [e.limit])
      == Changes(limits) + (if MustPush(w.synced, default, client, e.limit) then 1 else 0)
  {
  }

  /** If every push works, a client's limits are pushed once per change of the client's
      non-default resolved limits, and the memo is the last of them, whatever is evicted. */
  lemma {:induction false} PushedOncePerChange(w: World, default: int, client: string, es: seq<Event>)
    requires w.backend.Valid() && client !in w.synced && AllWork(es)
    ensures Pushes(w, default, client, es) == Changes(OwnLimits(default, client, es))
    ensures MemoIsLast(Ran(w, default, es).synced, client, OwnLimits(default, client, es))
  {
    if es != [] {
      var before, e := es[..|es| - 1], es[|es| - 1];
      var limits := OwnLimits(default, client, before);
      PushedOncePerChange(w, default, client, before);
      OneMoreEvent(Ran(w, default, before), default, client, limits, e);
      assert OwnLimits(default, client, es) == if IsOwn(default, client, e) then limits + [e.limit] else limits;
    }
  }

  /** So if none is dropped the limiter enforces the client's last non-default limit. A client
      that falls back to the default keeps the limit it had. */
  lemma LastOwnLimitIsEnforced(w: World, default: int, client: string, es: seq<Event>)
    requires w.backend.Valid() && client !in w.synced && w.backend.EnforcesDefault(client)
    requires AllOrdinary(w.backend, default, client, es) && AllWork(es) && NothingBreaks(w, default, client, es)
    ensures var limits, b := OwnLimits(default, client, es), Ran(w, default, es).backend;
      if limits == [] then b.EnforcesDefault(client)
      else b.Enforces(client, limits[|limits| - 1], limits[|limits| - 1] as real)
  {
    MemoIsEnforcedIff(w, default, client, es);
    PushedOncePerChange(w, default, client, es);
  }

  /** A reset client is as good as new: the default applies, in full. */
  lemma ResetRestoresDefault(b: Backend, client: string, now: int)
    requires b.Valid()
    ensures b.After(Reset(client, now)).EnforcesDefault(client)
    ensures b.After(Reset(client, now)).Answers(Tokens(client, now)) == Count(b.DefaultBurst())
  {
  }

  /** The state of a client the limiter has not met. */
  predicate Unmet(b: Backend, client: string)
    requires b.Valid()
  {
    match b
    case Memory(sys, _) => Mem.ViewOf(sys, client).Absent?
    case Redis(db, red) => Red.ViewOf(db, red, client) == Red.View(None, None, None, None)
  }

  lemma FirstTakeFromMemory(sys: M.System, mem: M.Config, client: string, burst: int, now: int)
    requires sys.Valid() && mem.Valid() && burst >= 1
    requires Mem.Available(mem, Mem.ViewOf(sys, client), now) == burst as real
    ensures var take, show := AllowN(client, 1, now), Tokens(client, now);
      && Mem.Reply(sys, mem, take) == Verdict(true)
      && Mem.Reply(Mem.Apply(sys, mem, take), mem, show) == Count(burst - 1)
  {
  }

  lemma FirstTakeFromRedis(db: R.Database, red: R.Config, client: string, now: int)
    requires R.ValidDb(db) && red.default.Valid() && Red.ViewOf(db, red, client).bucket.None?
    ensures var take, show := AllowN(client, 1, now), Tokens(client, now);
      && Red.Reply(db, red, take) == Verdict(true)
      && Red.Reply(Red.Apply(db, red, take), red, show)
         == Count(R.Effective(db, red, red.Key(client)).burst - 1)
  {
  }

  /** The push comes first: a new client's first request is admitted against its own limit
      and leaves one less, or one less than the default burst if it has none. */
  lemma FirstRequestIsHeldToOwnLimit(w: World, default: int, client: string, limit: int, now: int)
    requires w.backend.Valid() && Unmet(w.backend, client) && client !in w.synced
    requires limit == default || limit > 0
    ensures var b := Synced(w, default, client, limit, true, now).backend;
      && b.Valid() && b.Answers(AllowN(client, 1, now)) == Verdict(true)
      && b.After(AllowN(client, 1, now)).Answers(Tokens(client, now))
         == Count(if limit == default then w.backend.DefaultBurst() - 1 else limit - 1)
  {
    var push := SetLimit(client, limit, limit as real, now);
    match w.backend
    case Memory(sys, mem) =>
      Mem.ViewAfter(sys, mem, push, client);
      FirstTakeFromMemory(if limit == default then sys else Mem.Apply(sys, mem, push), mem, client,
                          if limit == default then mem.burst else limit, now);
    case Redis(db, red) =>
      Red.ViewAfterOwnCall(db, red, push, client);
      FirstTakeFromRedis(if limit == default then db else Red.Apply(db, red, push), red, client, now);
  }
}
