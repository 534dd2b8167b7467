/** The L1 cache in front of the client store, on values and as an object. Instants are
    nanoseconds; a lookup is the probe and, if that misses, the store's answer and the fill. */
module CachedStores {
  import opened LimiterOps

  /** Answers of the store, and of the cache in its place. */
  datatype Reply = Found(limit: int) | NotFound | Failed | InvalidKey

  datatype Entry = Entry(limit: int, expiresAt: int)

  type Cache = map<string, Entry>

  predicate Hit(cache: Cache, key: string, now: int) {
    key in cache && now < cache[key].expiresAt
  }

  /** What the cache remembers of an answer: a client that does not exist has limit 0. */
  function Remembered(reply: Reply): int {
    if reply.Found? then reply.limit else 0
  }

  function Filled(cache: Cache, ttl: int, key: string, reply: Reply, now: int): Cache {
    if reply.Found? || reply.NotFound? then cache[key := Entry(Remembered(reply), now + ttl)] else cache
  }

  function Swept(cache: Cache, now: int): Cache {
    map k | k in cache && !(now > cache[k].expiresAt) :: cache[k]
  }

  class CachedStore {
    var cache: Cache
    const ttl: int

    /** A time to live that is not positive is replaced by one minute. */
    constructor (ttl: int)
      ensures cache == map[] && this.ttl == (if ttl <= 0 then 60_000_000_000 else ttl) && this.ttl > 0
    {
      this.ttl := if ttl <= 0 then 60_000_000_000 else ttl;
      cache := map[];
    }

    /** The first step of a lookup: answer from the cache if it can. */
    method Probe(key: string, now: int) returns (limit: Option<int>)
      ensures limit == if Hit(cache, key, now) then Some(cache[key].limit) else None
    {
      if key in cache && now < cache[key].expiresAt {
        return Some(cache[key].limit);
      }
      return None;
    }

    /** The second step: remember what the store said. */
    method Fill(key: string, reply: Reply, now: int)
      modifies this
      ensures cache == Filled(old(cache), ttl, key, reply, now)
    {
      match reply
      case Found(limit) => cache := cache[key := Entry(limit, now + ttl)];
      case NotFound => cache := cache[key := Entry(0, now + ttl)];
      case _ =>
    }

    /** A lookup that nothing interleaves with; `answer` is what the store would say. */
    method GetClientLimit(key: string, answer: Reply, asked: int, filled: int) returns (reply: Reply)
      modifies this
      ensures key == "" ==> reply == InvalidKey && cache == old(cache)
      ensures key != "" && Hit(old(cache), key, asked) ==>
        reply == Found(old(cache)[key].limit) && cache == old(cache)
      ensures key != "" && !Hit(old(cache), key, asked) ==>
        reply == answer && cache == Filled(old(cache), ttl, key, answer, filled)
    {
      if key == "" {
        return InvalidKey;
      }
      var limit := Probe(key, asked);
      if limit.Some? {
        return Found(limit.value);
      }
      Fill(key, answer, filled);
      return answer;
    }

    method Invalidate(key: string)
      modifies this
      ensures cache == old(cache) - {key}
    {
      cache := cache - {key};
    }

    method Sweep(now: int)
      modifies this
      ensures cache == Swept(old(cache), now)
      ensures forall k :: k in cache <==> k in old(cache) && now <= old(cache)[k].expiresAt
      ensures forall k :: k in cache ==> cache[k] == old(cache)[k]
    {
      var todo := cache.Keys;
      ghost var was := cache;
      while todo != {}
        invariant todo <= was.Keys
        invariant cache == map k | k in was && (k in todo || !(now > was[k].expiresAt)) :: was[k]
        decreases todo
      {
        var key :| key in todo;
        if now > cache[key].expiresAt {
          cache := cache - {key};
        }
        todo := todo - {key};
      }
    }
  }
}

/** Runs of the cache in which lookups, invalidations and sweeps interleave at will. */
module CacheRuns {
  import opened ClientLimits
  import opened Counting
  import opened LimiterOps
  import opened CachedStores

  /** The store: its answer to a key at an instant. */
  type Store = (string, int) -> Reply

  /** A lookup that found no live entry: it asks the store, is answered, and fills the cache. */
  datatype Query =
    | Asking(key: string)
    | Answered(key: string, reply: Reply, at: int)
    | Stored(key: string, reply: Reply, at: int)

  /** One fill: the query it ends, what the store had answered and when, and its own time. */
  datatype Fill = Fill(id: nat, key: string, reply: Reply, answered: int, at: int)

  datatype World = World(cache: Cache, queries: seq<Query>, fills: seq<Fill>)

  const Start: World := World(map[], [], [])

  datatype Event =
    | Lookup(key: string, at: int)
    | Answer(id: nat, at: int)
    | FillIn(id: nat, at: int)
    | Invalidate(key: string, at: int)
    | Sweep(at: int)

  predicate Asks(cache: Cache, key: string, now: int) {
    key != "" && !Hit(cache, key, now)
  }

  predicate Awaits(w: World, id: nat) {
    id < |w.queries| && w.queries[id].Asking?
  }

  predicate MayFill(w: World, id: nat) {
    id < |w.queries| && w.queries[id].Answered?
  }

  /** Every query is answered once and filled in once. */
  function Apply(store: Store, ttl: int, w: World, e: Event): World {
    match e
    case Lookup(key, at) =>
      if Asks(w.cache, key, at) then w.(queries := w.queries + [Asking(key)]) else w
    case Answer(id, at) =>
      if Awaits(w, id) then
        var key := w.queries[id].key;
        w.(queries := w.queries[id := Answered(key, store(key, at), at)])
      else w
    case FillIn(id, at) =>
      if MayFill(w, id) then
        var q := w.queries[id];
        World(Filled(w.cache, ttl, q.key, q.reply, at), w.queries[id := Stored(q.key, q.reply, q.at)],
              w.fills + [Fill(id, q.key, q.reply, q.at, at)])
      else w
    case Invalidate(key, _) => w.(cache := w.cache - {key})
    case Sweep(at) => w.(cache := Swept(w.cache, at))
  }

  /** How a lookup made at that instant ends, if the store would answer it so. */
  function Served(w: World, key: string, at: int, answer: Reply): Reply {
    if key == "" then InvalidKey
    else if Hit(w.cache, key, at) then Found(w.cache[key].limit)
    else answer
  }

  function Ran(store: Store, ttl: int, w: World, es: seq<Event>): World
    decreases |es|
  {
    if es == [] then w else Ran(store, ttl, Apply(store, ttl, w, es[0]), es[1..])
  }

  // ----- freshness -----

  predicate Storable(reply: Reply) {
    reply.Found? || reply.NotFound?
  }

  /** The last of the fills to have written the key's entry. */
  function Source(fills: seq<Fill>, key: string): Option<Fill> {
    if fills == [] then None
    else
      var f := fills[|fills| - 1];
      if f.key == key && Storable(f.reply) then Some(f) else Source(fills[..|fills| - 1], key)
  }

  lemma {:induction false} SourceIsAFill(fills: seq<Fill>, key: string)
    ensures var f := Source(fills, key);
      f.Some? ==> f.value in fills && f.value.key == key && Storable(f.value.reply)
  {
    if fills != [] {
      SourceIsAFill(fills[..|fills| - 1], key);
    }
  }

  /** Every answer is the store's, every fill brings one, and every entry is what the last
      fill of its key left. */
  ghost predicate Inv(store: Store, ttl: int, w: World) {
    && (forall i :: 0 <= i < |w.queries| && !w.queries[i].Asking? ==>
          w.queries[i].reply == store(w.queries[i].key, w.queries[i].at))
    && (forall i :: 0 <= i < |w.fills| ==> w.fills[i].reply == store(w.fills[i].key, w.fills[i].answered))
    && (forall k :: k in w.cache ==>
          var f := Source(w.fills, k);
          f.Some? && w.cache[k] == Entry(Remembered(f.value.reply), f.value.at + ttl))
  }

  lemma InvKept(store: Store, ttl: int, w: World, e: Event)
    requires Inv(store, ttl, w)
    ensures Inv(store, ttl, Apply(store, ttl, w, e))
  {
    var w' := Apply(store, ttl, w, e);
    if e.FillIn? && MayFill(w, e.id) {
      assert w'.fills[..|w'.fills| - 1] == w.fills;
    }
  }

  lemma {:induction false} InvAlways(store: Store, ttl: int, w: World, es: seq<Event>)
    requires Inv(store, ttl, w)
    ensures Inv(store, ttl, Ran(store, ttl, w, es))
    decreases |es|
  {
    if es != [] {
      InvKept(store, ttl, w, es[0]);
      InvAlways(store, ttl, Apply(store, ttl, w, es[0]), es[1..]);
    }
  }

  /** The answer is what the store said to this fill's query, which was less than the time to
      live plus the fill's own delay ago. */
  predicate AccountsFor(store: Store, ttl: int, f: Fill, key: string, now: int, reply: Reply) {
    && f.key == key && f.reply == store(key, f.answered) && Storable(f.reply)
    && reply == Found(Remembered(f.reply))
    && now - f.answered < ttl + (f.at - f.answered)
  }

  /** Every cached answer is one the store gave, no longer ago than the time to live plus
      the time between that answer and its fill, under every interleaving and any clock. */
  lemma CachedAnswersAreFresh(store: Store, ttl: int, es: seq<Event>, key: string, now: int, answer: Reply)
    requires key != "" && Hit(Ran(store, ttl, Start, es).cache, key, now)
    ensures exists f ::
      && f in Ran(store, ttl, Start, es).fills
      && AccountsFor(store, ttl, f, key, now, Served(Ran(store, ttl, Start, es), key, now, answer))
  {
    InvAlways(store, ttl, Start, es);
    var w := Ran(store, ttl, Start, es);
    SourceIsAFill(w.fills, key);
    var f := Source(w.fills, key).value;
    assert f in w.fills && AccountsFor(store, ttl, f, key, now, Served(w, key, now, answer));
  }

  /** So if no fill lags its answer by more than `gap`, no answer is older than ttl + gap. */
  lemma CachedAnswersAreYoung(store: Store, ttl: int, es: seq<Event>, key: string, now: int, gap: int, answer: Reply)
    requires key != "" && Hit(Ran(store, ttl, Start, es).cache, key, now)
    requires forall f :: f in Ran(store, ttl, Start, es).fills ==> f.at - f.answered <= gap
    ensures exists t ::
      now - t < ttl + gap && Served(Ran(store, ttl, Start, es), key, now, answer) == Found(Remembered(store(key, t)))
  {
    CachedAnswersAreFresh(store, ttl, es, key, now, answer);
    var w := Ran(store, ttl, Start, es);
    var f :| f in w.fills && AccountsFor(store, ttl, f, key, now, Served(w, key, now, answer));
    assert Remembered(store(key, f.answered)) == Remembered(f.reply);
  }

  // ----- invalidation -----

  /** If the query has been answered, it was after the world `base`. */
  predicate AnsweredSince(base: World, id: nat) {
    id >= |base.queries| || base.queries[id].Asking?
  }

  /** `now` is a later world than `base`. */
  predicate Later(base: World, now: World) {
    && |base.queries| <= |now.queries| && |base.fills| <= |now.fills|
    && forall id :: 0 <= id < |base.queries| && now.queries[id].Asking? ==> base.queries[id].Asking?
  }

  /** The key's entry, if any, was filled in since `base`, with an answer given since. */
  predicate Renewed(base: World, now: World, key: string)
    requires Later(base, now)
  {
    key in now.cache ==>
      var f := Source(now.fills[|base.fills|..], key);
      f.Some? && AnsweredSince(base, f.value.id)
  }

  /** The query has an answer that would be remembered under the key. */
  predicate Pending(w: World, id: nat, key: string) {
    MayFill(w, id) && w.queries[id].key == key && Storable(w.queries[id].reply)
  }

  /** The event fills in, for the key, an answer from before `base`. */
  predicate FillsStale(base: World, now: World, e: Event, key: string) {
    e.FillIn? && Pending(now, e.id, key) && !AnsweredSince(base, e.id)
  }

  lemma StepRenewsIff(store: Store, ttl: int, base: World, now: World, e: Event, key: string)
    requires Later(base, now) && Renewed(base, now, key)
    ensures Later(base, Apply(store, ttl, now, e))
    ensures Renewed(base, Apply(store, ttl, now, e), key) <==> !FillsStale(base, now, e, key)
  {
    var next := Apply(store, ttl, now, e);
    var since := now.fills[|base.fills|..];
    if e.FillIn? && MayFill(now, e.id) {
      var f := next.fills[|now.fills|];
      assert next.fills[|base.fills|..] == since + [f] && (since + [f])[..|since|] == since;
    } else {
      assert next.fills == now.fills;
    }
  }

  predicate RenewedThroughout(store: Store, ttl: int, base: World, now: World, es: seq<Event>, key: string)
    decreases |es|
  {
    Later(base, now) && Renewed(base, now, key)
    && (es != [] ==> RenewedThroughout(store, ttl, base, Apply(store, ttl, now, es[0]), es[1..], key))
  }

  predicate NoStaleFill(store: Store, ttl: int, base: World, now: World, es: seq<Event>, key: string)
    decreases |es|
  {
    es != [] ==>
      && !FillsStale(base, now, es[0], key)
      && NoStaleFill(store, ttl, base, Apply(store, ttl, now, es[0]), es[1..], key)
  }

  lemma {:induction false} RenewedIffNoStaleFill(store: Store, ttl: int, base: World, now: World,
                                                 es: seq<Event>, key: string)
    requires Later(base, now) && Renewed(base, now, key)
    ensures RenewedThroughout(store, ttl, base, now, es, key) <==> NoStaleFill(store, ttl, base, now, es, key)
    decreases |es|
  {
    if es != [] {
      StepRenewsIff(store, ttl, base, now, es[0], key);
      if !FillsStale(base, now, es[0], key) {
        RenewedIffNoStaleFill(store, ttl, base, Apply(store, ttl, now, es[0]), es[1..], key);
      }
    }
  }

  /** From an invalidation on, throughout a run, the key is served from answers given and
      filled in since, or by the store, exactly if no answer from before is filled in. */
  lemma InvalidatedUntilStaleFill(store: Store, ttl: int, w: World, key: string, at: int, es: seq<Event>)
    ensures var base := Apply(store, ttl, w, Invalidate(key, at));
      RenewedThroughout(store, ttl, base, base, es, key) <==> NoStaleFill(store, ttl, base, base, es, key)
  {
    var base := Apply(store, ttl, w, Invalidate(key, at));
    RenewedIffNoStaleFill(store, ttl, base, base, es, key);
  }

  lemma {:induction false} NothingPendingNothingStale(store: Store, ttl: int, base: World, now: World,
                                                      es: seq<Event>, key: string)
    requires Later(base, now)
    requires forall id: nat :: Pending(now, id, key) ==> AnsweredSince(base, id)
    ensures NoStaleFill(store, ttl, base, now, es, key)
    decreases |es|
  {
    if es != [] {
      var next := Apply(store, ttl, now, es[0]);
      forall id: nat | Pending(next, id, key) ensures AnsweredSince(base, id) {
        assert Pending(now, id, key) || id >= |now.queries| || now.queries[id].Asking?;
      }
      NothingPendingNothingStale(store, ttl, base, next, es[1..], key);
    }
  }

  /** A late fill undoes an invalidation: an answer of the key pending at that moment is
      served again for a whole time to live. */
  lemma LateFillUndoesInvalidate(store: Store, ttl: int, w: World, key: string, at: int, id: nat, filled: int,
                                 now: int, answer: Reply)
    requires key != "" && Pending(w, id, key) && now < filled + ttl
    ensures var base := Apply(store, ttl, w, Invalidate(key, at));
      && FillsStale(base, base, FillIn(id, filled), key)
      && Served(Apply(store, ttl, base, FillIn(id, filled)), key, now, answer) == Found(Remembered(w.queries[id].reply))
  {
  }

  /** An invalidation holds in every run exactly if no answer of its key is pending when it
      is made. */
  lemma InvalidationHoldsIff(store: Store, ttl: int, w: World, key: string, at: int)
    ensures var base := Apply(store, ttl, w, Invalidate(key, at));
      (forall es: seq<Event> :: RenewedThroughout(store, ttl, base, base, es, key))
      <==> forall id: nat :: !Pending(w, id, key)
  {
    var base := Apply(store, ttl, w, Invalidate(key, at));
    if id: nat :| Pending(w, id, key) {
      var late := [FillIn(id, at)];
      assert FillsStale(base, base, late[0], key);
      InvalidatedUntilStaleFill(store, ttl, w, key, at, late);
    } else {
      forall id: nat ensures !Pending(base, id, key) {
        assert !Pending(w, id, key);
      }
      forall es: seq<Event> ensures RenewedThroughout(store, ttl, base, base, es, key) {
        NothingPendingNothingStale(store, ttl, base, base, es, key);
        InvalidatedUntilStaleFill(store, ttl, w, key, at, es);
      }
    }
  }

  // ----- an unchanging store -----

  /** In front of a store that does not change, the cache changes no resolved limit, after
      any history; a remembered absence, served as limit 0, resolves like the absence. */
  lemma CacheIsTransparent(store: Store, truth: string -> Reply, ttl: int, es: seq<Event>,
                           default: int, hasStore: bool, key: string, now: int)
    requires forall k, t :: store(k, t) == truth(k)
    ensures Resolve(default, hasStore, key, Served(Ran(store, ttl, Start, es), key, now, truth(key)))
         == Resolve(default, hasStore, key, truth(key))
  {
    if key != "" && Hit(Ran(store, ttl, Start, es).cache, key, now) {
      CachedAnswersAreFresh(store, ttl, es, key, now, truth(key));
    }
  }

  // ----- sweeping -----

  predicate Ascending(now: int, es: seq<Event>)
    decreases |es|
  {
    es != [] ==> now <= es[0].at && Ascending(es[0].at, es[1..])
  }

  /** What a run shows its callers: a lookup is served from the cache or goes to the store,
      which then answers it. */
  datatype Shown = FromCache(reply: Reply) | GoesToStore | FromStore(id: nat, reply: Reply)

  function Shows(store: Store, w: World, e: Event): seq<Shown> {
    match e
    case Lookup(key, at) =>
      if Asks(w.cache, key, at) then [GoesToStore] else [FromCache(Served(w, key, at, Failed))]
    case Answer(id, at) => if Awaits(w, id) then [FromStore(id, store(w.queries[id].key, at))] else []
    case _ => []
  }

  function AllShown(store: Store, ttl: int, w: World, es: seq<Event>): seq<Shown>
    decreases |es|
  {
    if es == [] then []
    else Shows(store, w, es[0]) + AllShown(store, ttl, Apply(store, ttl, w, es[0]), es[1..])
  }

  function WithoutSweeps(es: seq<Event>): seq<Event> {
    if es == [] then []
    else (if es[0].Sweep? then [] else [es[0]]) + WithoutSweeps(es[1..])
  }

  function Live(cache: Cache, key: string, now: int): Option<Entry> {
    if Hit(cache, key, now) then Some(cache[key]) else None
  }

  ghost predicate Alike(v: World, w: World, now: int) {
    v.queries == w.queries && v.fills == w.fills && forall k :: Live(v.cache, k, now) == Live(w.cache, k, now)
  }

  lemma AlikeAfter(store: Store, ttl: int, v: World, w: World, e: Event)
    requires Alike(v, w, e.at)
    ensures Alike(Apply(store, ttl, v, e), if e.Sweep? then w else Apply(store, ttl, w, e), e.at)
    ensures Shows(store, v, e) == Shows(store, w, e)
  {
    var v', w' := Apply(store, ttl, v, e), if e.Sweep? then w else Apply(store, ttl, w, e);
    if e.Lookup? {
      assert Live(v.cache, e.key, e.at) == Live(w.cache, e.key, e.at);
    }
    forall k ensures Live(v'.cache, k, e.at) == Live(w'.cache, k, e.at) {
      assert Live(v.cache, k, e.at) == Live(w.cache, k, e.at);
    }
  }

  lemma AlikeLater(v: World, w: World, t1: int, t2: int)
    requires Alike(v, w, t1) && t1 <= t2
    ensures Alike(v, w, t2)
  {
    forall k ensures Live(v.cache, k, t2) == Live(w.cache, k, t2) {
      assert Live(v.cache, k, t1) == Live(w.cache, k, t1);
    }
  }

  lemma {:induction false} SweepingRunsAlike(store: Store, ttl: int, v: World, w: World, es: seq<Event>, now: int)
    requires Alike(v, w, now) && Ascending(now, es)
    ensures AllShown(store, ttl, v, es) == AllShown(store, ttl, w, WithoutSweeps(es))
    decreases |es|
  {
    if es != [] {
      var e := es[0];
      AlikeLater(v, w, now, e.at);
      AlikeAfter(store, ttl, v, w, e);
      if e.Sweep? {
        SweepingRunsAlike(store, ttl, Apply(store, ttl, v, e), w, es[1..], e.at);
        assert WithoutSweeps(es) == WithoutSweeps(es[1..]);
      } else {
        SweepingRunsAlike(store, ttl, Apply(store, ttl, v, e), Apply(store, ttl, w, e), es[1..], e.at);
        assert WithoutSweeps(es)[0] == e && WithoutSweeps(es)[1..] == WithoutSweeps(es[1..]);
      }
    }
  }

  /** Sweeping is invisible: at whatever moments the sweep runs, every lookup is answered,
      and goes to the store, just as if it never ran. */
  lemma SweepIsInvisible(store: Store, ttl: int, es: seq<Event>, start: int)
    requires Ascending(start, es)
    ensures AllShown(store, ttl, Start, es) == AllShown(store, ttl, Start, WithoutSweeps(es))
  {
    SweepingRunsAlike(store, ttl, Start, Start, es, start);
  }

  // ----- how often the store is asked -----

  /** One undisturbed lookup: when it looks, when the store answers and when it fills if it
      must ask, and whether a sweep ran just before. */
  datatype Visit = Visit(at: int, answered: int, filled: int, swept: bool)

  function Seen(cache: Cache, v: Visit): Cache {
    if v.swept then Swept(cache, v.at) else cache
  }

  predicate MustAsk(cache: Cache, key: string, v: Visit) {
    !Hit(Seen(cache, v), key, v.at)
  }

  function Visited(store: Store, ttl: int, cache: Cache, key: string, v: Visit): Cache {
    if MustAsk(cache, key, v) then Filled(Seen(cache, v), ttl, key, store(key, v.answered), v.filled) else Seen(cache, v)
  }

  function AfterVisits(store: Store, ttl: int, key: string, vs: seq<Visit>): Cache {
    if vs == [] then map[]
    else Visited(store, ttl, AfterVisits(store, ttl, key, vs[..|vs| - 1]), key, vs[|vs| - 1])
  }

  function StoreQueries(store: Store, ttl: int, key: string, vs: seq<Visit>): nat {
    if vs == [] then 0
    else
      var before := vs[..|vs| - 1];
      StoreQueries(store, ttl, key, before)
      + (if MustAsk(AfterVisits(store, ttl, key, before), key, vs[|vs| - 1]) then 1 else 0)
  }

  /** Visits follow one another, none before `start`. */
  predicate Sequential(start: int, vs: seq<Visit>) {
    && (forall i :: 0 <= i < |vs| ==> start <= vs[i].at <= vs[i].answered <= vs[i].filled)
    && (forall i, j :: 0 <= i < j < |vs| ==> vs[i].filled <= vs[j].at)
  }

  predicate AnswersWell(store: Store, key: string, vs: seq<Visit>) {
    forall i :: 0 <= i < |vs| ==> var r := store(key, vs[i].answered); r.Found? || r.NotFound?
  }

  /** The least time at which the n-th query can be. */
  function EarliestQuery(ttl: int, start: int, n: nat): int {
    if n <= 1 then start else EarliestQuery(ttl, start, n - 1) + ttl
  }

  lemma {:induction false} EarliestQueryIsLinear(ttl: int, start: int, n: nat)
    requires n > 0
    ensures EarliestQuery(ttl, start, n) == start + (n - 1) * ttl
  {
    if n > 1 {
      EarliestQueryIsLinear(ttl, start, n - 1);
      assert (n - 1) * ttl == (n - 2) * ttl + ttl;
    }
  }

  /** After n queries, the entry of the last one keeps the next away until its time. */
  lemma {:induction false} QueriesTakeTime(store: Store, ttl: int, key: string, vs: seq<Visit>, start: int)
    requires ttl > 0 && Sequential(start, vs) && AnswersWell(store, key, vs)
    ensures var n, cache := StoreQueries(store, ttl, key, vs), AfterVisits(store, ttl, key, vs);
      && (n == 0 ==> vs == [])
      && (vs != [] ==>
            && EarliestQuery(ttl, start, n) <= vs[|vs| - 1].at
            && key in cache && cache[key].expiresAt >= EarliestQuery(ttl, start, n + 1))
  {
    if vs != [] {
      var before, v := vs[..|vs| - 1], vs[|vs| - 1];
      QueriesTakeTime(store, ttl, key, before, start);
      var r := store(key, v.answered);
      assert r.Found? || r.NotFound?;
      var n, cache := StoreQueries(store, ttl, key, before), AfterVisits(store, ttl, key, before);
      if MustAsk(cache, key, v) {
        assert before != [] ==> EarliestQuery(ttl, start, n + 1) <= cache[key].expiresAt <= v.at;
      } else {
        assert Seen(cache, v)[key] == cache[key];
      }
    }
  }

  /** Undisturbed lookups of one key that span T ticks ask the store at most 1 + T / ttl times. */
  lemma StoreQueriesAreFew(store: Store, ttl: int, key: string, vs: seq<Visit>, start: int, span: nat)
    requires ttl > 0 && Sequential(start, vs) && AnswersWell(store, key, vs)
    requires forall i :: 0 <= i < |vs| ==> vs[i].at <= start + span
    ensures StoreQueries(store, ttl, key, vs) <= 1 + span / ttl
  {
    QueriesTakeTime(store, ttl, key, vs, start);
    var n := StoreQueries(store, ttl, key, vs);
    if n > 0 {
      EarliestQueryIsLinear(ttl, start, n);
      DivideBound(n - 1, ttl, span);
    }
  }
}
