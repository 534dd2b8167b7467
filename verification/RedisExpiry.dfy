/** Runs of the Redis limiter: which clients share state, and why dropping idle keys cannot
    be noticed. */
module RedisExpiry {
  import opened TokenBucketModel
  import opened LimiterOps
  import opened RedisLimiterModel

  /** A call as one step. SetLimit with a limit no bucket can have is not made by the
      gateway and changes nothing here. */
  function Apply(db: Database, cfg: Config, op: Op): (db': Database)
    requires ValidDb(db) && cfg.default.Valid()
    ensures ValidDb(db')
  {
    match op
    case AllowN(c, n, at) => if n <= 0 then db else AfterScript(db, cfg, cfg.Key(c), n, at)
    case Tokens(_, _) => db
    case Reset(c, _) => Deleted(db, cfg.Key(c))
    case SetLimit(c, burst, rps, _) =>
      if Limit(burst, rps).Valid() then WithLimit(db, cfg.Key(c), Limit(burst, rps)) else db
    case Cleanup(_) => db
    case Expire(key, at) => Expired(db, key, at)
  }

  function Reply(db: Database, cfg: Config, op: Op): Answer {
    match op
    case AllowN(c, n, at) =>
      Verdict(n <= 0 || ScriptGrants(Effective(db, cfg, cfg.Key(c)), At(db, cfg.Key(c)).bucket, n, at))
    case Tokens(c, at) => Count(ShownTokens(db, cfg, cfg.Key(c), at))
    case _ => Done
  }

  /** The answers to one client's calls, in order. */
  function RepliesTo(client: string, db: Database, cfg: Config, ops: seq<Op>): seq<Answer>
    requires ValidDb(db) && cfg.default.Valid()
    decreases |ops|
  {
    if ops == [] then []
    else
      (if Concerns(ops[0], client) then [Reply(db, cfg, ops[0])] else [])
      + RepliesTo(client, Apply(db, cfg, ops[0]), cfg, ops[1..])
  }

  /** The same calls made to a server that never expires a key. */
  function WithoutExpire(ops: seq<Op>): seq<Op> {
    if ops == [] then []
    else (if ops[0].Expire? then [] else [ops[0]]) + WithoutExpire(ops[1..])
  }

  // ----- what one client can see -----

  /** The client's bucket and override, and when the server may drop each. */
  datatype View = View(bucket: Option<Bucket>, expiresAt: Option<int>, over: Option<Limit>, overExpiresAt: Option<int>)

  function ViewOf(db: Database, cfg: Config, client: string): View {
    var state, over := At(db, cfg.Key(client)), At(db, cfg.Key(client) + CFG_SUFFIX);
    View(state.bucket, state.expiresAt, over.over, over.expiresAt)
  }

  function EffectiveOf(cfg: Config, v: View): Limit {
    if v.over.Some? then v.over.value else cfg.default
  }

  /** Neither client's id is the other's with the override suffix. */
  predicate Separate(a: string, b: string) {
    a != b && a != b + ":cfg" && b != a + ":cfg"
  }

  lemma AppendIsInjective(p: string, a: string, b: string, s: string)
    ensures p + a == p + b <==> a == b
    ensures a + s == b + s <==> a == b
  {
    if p + a == p + b {
      assert a == (p + a)[|p|..] == (p + b)[|p|..] == b;
    }
    if a + s == b + s {
      assert a == (a + s)[..|a|] == (b + s)[..|b|] == b;
    }
  }

  lemma SeparateKeys(cfg: Config, a: string, b: string)
    ensures cfg.Key(a) == cfg.Key(b) <==> a == b
    ensures cfg.Key(a) == cfg.Key(b) + CFG_SUFFIX <==> a == b + CFG_SUFFIX
    ensures cfg.Key(a) + CFG_SUFFIX == cfg.Key(b) + CFG_SUFFIX <==> a == b
  {
    AppendIsInjective(cfg.prefix, a, b, "");
    AppendIsInjective(cfg.prefix, a, b + CFG_SUFFIX, "");
    AppendIsInjective("", cfg.Key(a), cfg.Key(b), CFG_SUFFIX);
    assert cfg.Key(b) + CFG_SUFFIX == cfg.prefix + (b + CFG_SUFFIX);
  }

  lemma PrefixesOfOne(p: string, q: string, s: string)
    requires p <= s && q <= s
    ensures p <= q || q <= p
  {
    assert p == s[..|p|] && q == s[..|q|];
    if |p| <= |q| {
      assert q[..|p|] == p;
    } else {
      assert p[..|q|] == q;
    }
  }

  /** Limiters with different key prefixes share no key, exactly if neither prefix begins
      with the other. */
  lemma PrefixesSeparateIff(a: Config, b: Config)
    ensures (forall c: string, d: string :: a.Key(c) != b.Key(d)) <==> !(a.prefix <= b.prefix || b.prefix <= a.prefix)
  {
    if c: string, d: string :| a.Key(c) == b.Key(d) {
      PrefixesOfOne(a.prefix, b.prefix, a.Key(c));
    }
    if a.prefix <= b.prefix {
      assert a.Key(b.prefix[|a.prefix|..]) == b.Key("");
    }
    if b.prefix <= a.prefix {
      assert a.Key("") == b.Key(a.prefix[|b.prefix|..]);
    }
  }

  lemma OwnKeysDiffer(cfg: Config, a: string)
    ensures cfg.Key(a) != cfg.Key(a) + CFG_SUFFIX
  {
  }

  /** What a client's own call does to its view. */
  function Seen(cfg: Config, v: View, op: Op): View
    requires EffectiveOf(cfg, v).Valid()
  {
    match op
    case AllowN(_, n, at) =>
      if n <= 0 then v
      else v.(bucket := Some(ScriptTaken(EffectiveOf(cfg, v), v.bucket, n, at)),
              expiresAt := Some(at + MILLIS_PER_SECOND * EffectiveOf(cfg, v).TimeToLive()))
    case Reset(_, _) => View(None, None, None, None)
    case SetLimit(_, burst, rps, _) =>
      if Limit(burst, rps).Valid() then v.(over := Some(Limit(burst, rps))) else v
    case _ => v
  }

  lemma ViewAfterOwnCall(db: Database, cfg: Config, op: Op, client: string)
    requires ValidDb(db) && cfg.default.Valid() && Concerns(op, client)
    ensures ViewOf(Apply(db, cfg, op), cfg, client) == Seen(cfg, ViewOf(db, cfg, client), op)
  {
  }

  lemma ViewAfterOthersCall(db: Database, cfg: Config, op: Op, other: string, client: string)
    requires ValidDb(db) && cfg.default.Valid() && Concerns(op, other) && Separate(other, client)
    ensures ViewOf(Apply(db, cfg, op), cfg, client) == ViewOf(db, cfg, client)
  {
    SeparateKeys(cfg, other, client);
    SeparateKeys(cfg, client, other);
  }

  ghost predicate Undisturbed(cfg: Config, other: string, client: string, db: Database, op: Op)
    requires cfg.default.Valid()
  {
    ValidDb(db) && Concerns(op, other) ==> ViewOf(Apply(db, cfg, op), cfg, client) == ViewOf(db, cfg, client)
  }

  /** Two clients are independent exactly when neither id is the other's plus ":cfg": the
      override of "a" and the bucket of "a:cfg" are one key. */
  lemma ClientsAreIndependentIff(cfg: Config, other: string, client: string)
    requires cfg.default.Valid() && other != client
    ensures Separate(other, client) <==> forall db: Database, op: Op :: Undisturbed(cfg, other, client, db, op)
  {
    if Separate(other, client) {
      forall db: Database, op: Op ensures Undisturbed(cfg, other, client, db, op) {
        if ValidDb(db) && Concerns(op, other) {
          ViewAfterOthersCall(db, cfg, op, other, client);
        }
      }
    } else if other == client + CFG_SUFFIX {
      SeparateKeys(cfg, other, client);
      assert !Undisturbed(cfg, other, client, map[], AllowN(other, 1, 0));
    } else {
      SeparateKeys(cfg, client, other);
      var db := Apply(map[], cfg, AllowN(client, 1, 0));
      assert ViewOf(db, cfg, client).bucket.Some?;
      assert ViewOf(Apply(db, cfg, Reset(other, 0)), cfg, client).bucket.None?;
      assert !Undisturbed(cfg, other, client, db, Reset(other, 0));
    }
  }

  // ----- expiry -----

  /** A bucket under this limit, however empty, is full again after that many milliseconds. */
  predicate FillsIn(limit: Limit, millis: int) {
    Gain(limit.P(), millis) >= limit.burst as real
  }

  /** The least time for which a bucket last written under this limit is kept. */
  function Kept(limit: Limit): int
    requires limit.Valid()
  {
    MILLIS_PER_SECOND * limit.TimeToLive() + 1
  }

  ghost predicate AllValid(limits: iset<Limit>) {
    forall l :: l in limits ==> l.Valid()
  }

  ghost predicate AllFillIn(limits: iset<Limit>, millis: int) {
    forall l :: l in limits ==> FillsIn(l, millis)
  }

  /** A bucket written under the default or any of the overrides is kept until it would be
      full under every override that may have come into force since. */
  ghost predicate FillsBeforeExpiry(cfg: Config, limits: iset<Limit>)
    requires cfg.default.Valid() && AllValid(limits)
  {
    AllFillIn(limits, Kept(cfg.default)) && forall l :: l in limits ==> AllFillIn(limits, Kept(l))
  }

  /** The bucket has certainly filled up, under any of the overrides and, for a client that
      has none, under the default. */
  ghost predicate Stale(cfg: Config, limits: iset<Limit>, b: Bucket, overridden: bool, now: int) {
    && b.last <= now && AllFillIn(limits, now - b.last)
    && (overridden || FillsIn(cfg.default, now - b.last))
  }

  /** A view of the expiring server and one of the server that keeps everything: the same,
      except that the former may lack a bucket that would by now be full. */
  ghost predicate Related(cfg: Config, limits: iset<Limit>, v: View, w: View, now: int) {
    && v.over == w.over && v.overExpiresAt.None? && w.overExpiresAt.None?
    && (v.over.Some? ==> v.over.value in limits)
    && (w.bucket.Some? ==> w.bucket.value.level >= 0.0 && w.bucket.value.last <= now)
    && (v.bucket.Some? ==>
          && w.bucket == v.bucket && v.expiresAt.Some?
          && Stale(cfg, limits, v.bucket.value, v.over.Some?, v.expiresAt.value + 1))
    && (v.bucket.None? && w.bucket.Some? ==> Stale(cfg, limits, w.bucket.value, v.over.Some?, now))
  }

  lemma StaleLater(cfg: Config, limits: iset<Limit>, b: Bucket, overridden: bool, t1: int, t2: int)
    requires cfg.default.Valid() && AllValid(limits) && Stale(cfg, limits, b, overridden, t1) && t1 <= t2
    ensures Stale(cfg, limits, b, overridden, t2)
  {
    GainMonotone(cfg.default.P(), t1 - b.last, t2 - b.last);
    forall l | l in limits ensures FillsIn(l, t2 - b.last) {
      assert l.Valid() && FillsIn(l, t1 - b.last);
      GainMonotone(l.P(), t1 - b.last, t2 - b.last);
    }
  }

  lemma StaleIsFull(cfg: Config, limits: iset<Limit>, b: Bucket, over: Option<Limit>, now: int)
    requires Stale(cfg, limits, b, over.Some?, now) && b.level >= 0.0
    requires over.Some? ==> over.value in limits
    ensures var limit := if over.Some? then over.value else cfg.default;
      ScriptRefill(limit.P(), b, now) == Full(limit.P(), now)
  {
    var limit := if over.Some? then over.value else cfg.default;
    assert FillsIn(limit, now - b.last);
  }

  lemma CeilingIsAbove(x: real)
    ensures (Ceiling(x) - 1) as real < x <= Ceiling(x) as real
  {
  }

  /** The time to live is twice the time to fill, rounded up, and a second: at least two
      seconds, and long enough to fill. */
  lemma TimeToLiveFills(limit: Limit)
    requires limit.Valid()
    ensures (limit.TimeToLive() - 2) as real < 2.0 * (limit.burst as real / limit.rps) <= (limit.TimeToLive() - 1) as real
    ensures limit.TimeToLive() >= 2
    ensures FillsIn(limit, MILLIS_PER_SECOND * limit.TimeToLive())
  {
    var fill := limit.burst as real / limit.rps;
    CeilingIsAbove(fill * 2.0);
    assert fill * 2.0 > 0.0;
    var ttl := limit.TimeToLive();
    assert Gain(limit.P(), MILLIS_PER_SECOND * ttl) == limit.rps * ttl as real by {
      assert (MILLIS_PER_SECOND * ttl) as real == 1000.0 * ttl as real;
    }
    assert limit.rps * ttl as real >= limit.rps * fill by {
      assert ttl as real >= fill;
    }
    assert limit.rps * fill == limit.burst as real;
  }

  /** So a bucket outlives the time it takes to fill under the limit it was written under. */
  lemma FillsWhileKept(limit: Limit)
    requires limit.Valid()
    ensures FillsIn(limit, Kept(limit)) && Kept(limit) > 2 * MILLIS_PER_SECOND
  {
    TimeToLiveFills(limit);
    GainMonotone(limit.P(), MILLIS_PER_SECOND * limit.TimeToLive(), Kept(limit));
  }

  lemma RelatedLater(cfg: Config, limits: iset<Limit>, v: View, w: View, t1: int, t2: int)
    requires cfg.default.Valid() && AllValid(limits) && Related(cfg, limits, v, w, t1) && t1 <= t2
    ensures Related(cfg, limits, v, w, t2)
  {
    if v.bucket.None? && w.bucket.Some? {
      StaleLater(cfg, limits, w.bucket.value, v.over.Some?, t1, t2);
    }
  }

  /** A request on either server finds the same tokens. */
  lemma SameTokens(cfg: Config, limits: iset<Limit>, v: View, w: View, now: int)
    requires Related(cfg, limits, v, w, now)
    ensures EffectiveOf(cfg, v) == EffectiveOf(cfg, w)
    ensures Current(EffectiveOf(cfg, v).P(), v.bucket, now) == Current(EffectiveOf(cfg, w).P(), w.bucket, now)
  {
    assert Gain(EffectiveOf(cfg, v).P(), 0) == 0.0;
    if v.bucket.None? && w.bucket.Some? {
      StaleIsFull(cfg, limits, w.bucket.value, v.over, now);
    }
  }

  lemma RelatedAfterTake(cfg: Config, limits: iset<Limit>, v: View, w: View, op: Op)
    requires cfg.default.Valid() && AllValid(limits) && FillsBeforeExpiry(cfg, limits)
    requires Related(cfg, limits, v, w, op.at) && op.AllowN? && op.n > 0
    ensures EffectiveOf(cfg, v).Valid() && Related(cfg, limits, Seen(cfg, v, op), Seen(cfg, w, op), op.at)
  {
    var limit := EffectiveOf(cfg, v);
    SameTokens(cfg, limits, v, w, op.at);
    FillsWhileKept(limit);
    assert AllFillIn(limits, Kept(limit));
    var v' := Seen(cfg, v, op);
    assert v'.bucket.value.last == op.at && v'.expiresAt.value + 1 - op.at == Kept(limit);
    if w.bucket.Some? {
      GainMonotone(limit.P(), 0, op.at - w.bucket.value.last);
    }
  }

  lemma RelatedAfterCall(cfg: Config, limits: iset<Limit>, v: View, w: View, op: Op)
    requires cfg.default.Valid() && AllValid(limits) && FillsBeforeExpiry(cfg, limits)
    requires Related(cfg, limits, v, w, op.at) && !op.Cleanup? && !op.Expire?
    requires op.SetLimit? ==> Limit(op.burst, op.rps) in limits
    ensures EffectiveOf(cfg, v).Valid() && Related(cfg, limits, Seen(cfg, v, op), Seen(cfg, w, op), op.at)
  {
    if op.AllowN? && op.n > 0 {
      RelatedAfterTake(cfg, limits, v, w, op);
    }
  }

  /** The client's own overrides are among the limits, and every other client is separate. */
  ghost predicate ProperOp(client: string, limits: iset<Limit>, op: Op) {
    op.Cleanup? || op.Expire? ||
    if op.client == client then op.SetLimit? ==> Limit(op.burst, op.rps) in limits
    else Separate(op.client, client)
  }

  ghost predicate Proper(client: string, limits: iset<Limit>, ops: seq<Op>) {
    forall i :: 0 <= i < |ops| ==> ProperOp(client, limits, ops[i])
  }

  lemma RelatedAfterExpire(client: string, cfg: Config, limits: iset<Limit>, db: Database, w: View, op: Op)
    requires cfg.default.Valid() && AllValid(limits) && ValidDb(db) && op.Expire?
    requires Related(cfg, limits, ViewOf(db, cfg, client), w, op.at)
    ensures Related(cfg, limits, ViewOf(Apply(db, cfg, op), cfg, client), w, op.at)
  {
    var v := ViewOf(db, cfg, client);
    OwnKeysDiffer(cfg, client);
    if Due(db, op.key, op.at) && op.key == cfg.Key(client) && v.bucket.Some? {
      StaleLater(cfg, limits, v.bucket.value, v.over.Some?, v.expiresAt.value + 1, op.at);
    }
  }

  lemma RelatedAfterStep(client: string, cfg: Config, limits: iset<Limit>, db: Database, kept: Database, op: Op)
    requires cfg.default.Valid() && AllValid(limits) && FillsBeforeExpiry(cfg, limits)
    requires ValidDb(db) && ValidDb(kept) && ProperOp(client, limits, op) && !op.Expire?
    requires Related(cfg, limits, ViewOf(db, cfg, client), ViewOf(kept, cfg, client), op.at)
    ensures Related(cfg, limits, ViewOf(Apply(db, cfg, op), cfg, client),
                    ViewOf(Apply(kept, cfg, op), cfg, client), op.at)
    ensures Concerns(op, client) ==> Reply(db, cfg, op) == Reply(kept, cfg, op)
  {
    if Concerns(op, client) {
      SameTokens(cfg, limits, ViewOf(db, cfg, client), ViewOf(kept, cfg, client), op.at);
      RelatedAfterCall(cfg, limits, ViewOf(db, cfg, client), ViewOf(kept, cfg, client), op);
      ViewAfterOwnCall(db, cfg, op, client);
      ViewAfterOwnCall(kept, cfg, op, client);
    } else if !op.Cleanup? {
      ViewAfterOthersCall(db, cfg, op, op.client, client);
      ViewAfterOthersCall(kept, cfg, op, op.client, client);
    }
  }

  lemma {:induction false} ExpiringRunsAlike(client: string, cfg: Config, limits: iset<Limit>, db: Database,
                                             kept: Database,
                                             ops: seq<Op>, now: int)
    requires cfg.default.Valid() && AllValid(limits) && FillsBeforeExpiry(cfg, limits)
    requires ValidDb(db) && ValidDb(kept)
    requires Related(cfg, limits, ViewOf(db, cfg, client), ViewOf(kept, cfg, client), now)
    requires Ascending(now, ops) && Proper(client, limits, ops)
    ensures RepliesTo(client, db, cfg, ops) == RepliesTo(client, kept, cfg, WithoutExpire(ops))
    decreases |ops|
  {
    if ops != [] {
      var op := ops[0];
      assert ProperOp(client, limits, op);
      RelatedLater(cfg, limits, ViewOf(db, cfg, client), ViewOf(kept, cfg, client), now, op.at);
      if op.Expire? {
        RelatedAfterExpire(client, cfg, limits, db, ViewOf(kept, cfg, client), op);
        ExpiringRunsAlike(client, cfg, limits, Apply(db, cfg, op), kept, ops[1..], op.at);
        assert WithoutExpire(ops) == WithoutExpire(ops[1..]);
      } else {
        RelatedAfterStep(client, cfg, limits, db, kept, op);
        ExpiringRunsAlike(client, cfg, limits, Apply(db, cfg, op), Apply(kept, cfg, op), ops[1..], op.at);
        assert WithoutExpire(ops)[0] == op && WithoutExpire(ops)[1..] == WithoutExpire(ops[1..]);
      }
    }
  }

  /** A server that drops keys at any moments after their time to live gives the client the
      answers of one that never drops any, in this run of calls on overrides among the limits. */
  ghost predicate ExpiryUnseenIn(client: string, cfg: Config, limits: iset<Limit>, ops: seq<Op>, start: int)
    requires cfg.default.Valid()
  {
    Ascending(start, ops) && Proper(client, limits, ops)
    ==> RepliesTo(client, map[], cfg, ops) == RepliesTo(client, map[], cfg, WithoutExpire(ops))
  }

  ghost predicate ExpiryUnseen(client: string, cfg: Config, limits: iset<Limit>)
    requires cfg.default.Valid()
  {
    forall ops: seq<Op>, start: int :: ExpiryUnseenIn(client, cfg, limits, ops, start)
  }

  // ----- runs that show expiry -----

  lemma RepliesUnfold(client: string, db: Database, cfg: Config, op: Op, rest: seq<Op>)
    requires ValidDb(db) && cfg.default.Valid()
    ensures RepliesTo(client, db, cfg, [op] + rest)
         == (if Concerns(op, client) then [Reply(db, cfg, op)] else []) + RepliesTo(client, Apply(db, cfg, op), cfg, rest)
    ensures WithoutExpire([op] + rest) == (if op.Expire? then [] else [op]) + WithoutExpire(rest)
    ensures forall start :: Ascending(start, [op] + rest) <==> start <= op.at && Ascending(op.at, rest)
  {
  }

  /** Two runs that part at the last call, one after an expiry and one without it. */
  lemma LastReply(client: string, cfg: Config, db: Database, drop: Op, again: Op)
    requires cfg.default.Valid() && ValidDb(db) && drop.Expire? && Concerns(again, client)
    ensures RepliesTo(client, db, cfg, [drop] + [again]) == [Reply(Apply(db, cfg, drop), cfg, again)]
    ensures RepliesTo(client, db, cfg, [again]) == [Reply(db, cfg, again)]
    ensures WithoutExpire([drop] + [again]) == [again]
    ensures forall start :: Ascending(start, [drop] + [again]) <==> start <= drop.at <= again.at
  {
    RepliesUnfold(client, db, cfg, drop, [again]);
    assert [again] == [again] + [];
    RepliesUnfold(client, Apply(db, cfg, drop), cfg, again, []);
    RepliesUnfold(client, db, cfg, again, []);
  }

  /** A call made earlier does not hide a difference. */
  lemma OneCallEarlier(client: string, cfg: Config, db: Database, op: Op, rest: seq<Op>)
    requires cfg.default.Valid() && ValidDb(db) && Concerns(op, client)
    requires var db' := Apply(db, cfg, op);
      RepliesTo(client, db', cfg, rest) != RepliesTo(client, db', cfg, WithoutExpire(rest))
    ensures RepliesTo(client, db, cfg, [op] + rest) != RepliesTo(client, db, cfg, WithoutExpire([op] + rest))
  {
    var db' := Apply(db, cfg, op);
    RepliesUnfold(client, db, cfg, op, rest);
    RepliesUnfold(client, db, cfg, op, WithoutExpire(rest));
    var answer := [Reply(db, cfg, op)];
    assert (answer + RepliesTo(client, db', cfg, rest))[1..] == RepliesTo(client, db', cfg, rest);
    assert (answer + RepliesTo(client, db', cfg, WithoutExpire(rest)))[1..]
        == RepliesTo(client, db', cfg, WithoutExpire(rest));
  }

  /** So a difference made by the last call of five is one between the runs. */
  lemma DifferenceShows(client: string, cfg: Config, a: Op, b: Op, c: Op, drop: Op, again: Op)
    requires cfg.default.Valid() && Concerns(a, client) && Concerns(b, client) && Concerns(c, client)
    requires drop.Expire? && Concerns(again, client)
    requires var db := Apply(Apply(Apply(map[], cfg, a), cfg, b), cfg, c);
      Reply(Apply(db, cfg, drop), cfg, again) != Reply(db, cfg, again)
    ensures var ops := [a] + ([b] + ([c] + ([drop] + [again])));
      RepliesTo(client, map[], cfg, ops) != RepliesTo(client, map[], cfg, WithoutExpire(ops))
  {
    var d1 := Apply(map[], cfg, a);
    var d2 := Apply(d1, cfg, b);
    var tail := [drop] + [again];
    LastReply(client, cfg, Apply(d2, cfg, c), drop, again);
    OneCallEarlier(client, cfg, d2, c, tail);
    OneCallEarlier(client, cfg, d1, b, [c] + tail);
    OneCallEarlier(client, cfg, map[], a, [b] + ([c] + tail));
  }

  /** A bucket emptied under one limit and then put under another, in which it does not fill
      while it is kept, is refused its burst; once it is dropped it is granted it. */
  lemma DrainedThenOverridden(client: string, cfg: Config, db: Database, drained: Limit, slow: Limit)
    requires cfg.default.Valid() && ValidDb(db) && drained.Valid() && slow.Valid()
    requires var v := ViewOf(db, cfg, client); v.bucket.None? && EffectiveOf(cfg, v) == drained
    requires !FillsIn(slow, Kept(drained))
    ensures var late := Kept(drained);
      var d := Apply(Apply(db, cfg, AllowN(client, drained.burst, 0)), cfg, SetLimit(client, slow.burst, slow.rps, 0));
      && Reply(d, cfg, AllowN(client, slow.burst, late)) == Verdict(false)
      && Reply(Apply(d, cfg, Expire(cfg.Key(client), late)), cfg, AllowN(client, slow.burst, late)) == Verdict(true)
  {
    var take, slower, late := AllowN(client, drained.burst, 0), SetLimit(client, slow.burst, slow.rps, 0), Kept(drained);
    var d1 := Apply(db, cfg, take);
    var d := Apply(d1, cfg, slower);
    OwnKeysDiffer(cfg, client);
    ViewAfterOwnCall(db, cfg, take, client);
    ViewAfterOwnCall(d1, cfg, slower, client);
    FillsWhileKept(drained);
    assert Gain(drained.P(), 0) == 0.0 && Gain(slow.P(), 0) == 0.0;
    var v := ViewOf(d, cfg, client);
    assert v.bucket == Some(Bucket(0.0, 0)) && v.expiresAt == Some(late - 1) && v.over == Some(slow);
    assert !ScriptGrants(slow, v.bucket, slow.burst, late);
    assert Due(d, cfg.Key(client), late);
    assert ViewOf(Expired(d, cfg.Key(client), late), cfg, client).bucket.None?;
  }

  lemma OneMoreInOrder(start: int, op: Op, rest: seq<Op>)
    requires start <= op.at && Ascending(op.at, rest)
    ensures Ascending(start, [op] + rest)
  {
    assert ([op] + rest)[1..] == rest;
  }

  lemma FiveInOrder(a: Op, b: Op, c: Op, d: Op, e: Op)
    requires 0 <= a.at <= b.at <= c.at <= d.at <= e.at
    ensures Ascending(0, [a] + ([b] + ([c] + ([d] + [e]))))
  {
    OneMoreInOrder(d.at, e, []);
    assert [e] + [] == [e];
    OneMoreInOrder(c.at, d, [e]);
    OneMoreInOrder(b.at, c, [d] + [e]);
    OneMoreInOrder(a.at, b, [c] + ([d] + [e]));
    OneMoreInOrder(0, a, [b] + ([c] + ([d] + [e])));
  }

  /** Expiry shows whenever one of the overrides does not fill in the time for which a bucket
      written under the default, or under another of them, is kept. */
  lemma SlowOverrideShowsExpiry(client: string, cfg: Config, limits: iset<Limit>, drained: Limit, slow: Limit)
    returns (ops: seq<Op>)
    requires cfg.default.Valid() && AllValid(limits) && slow in limits
    requires drained == cfg.default || drained in limits
    requires !FillsIn(slow, Kept(drained))
    ensures !ExpiryUnseenIn(client, cfg, limits, ops, 0)
  {
    var first := if drained == cfg.default then Reset(client, 0) else SetLimit(client, drained.burst, drained.rps, 0);
    var take, slower := AllowN(client, drained.burst, 0), SetLimit(client, slow.burst, slow.rps, 0);
    var late := Kept(drained);
    var drop, again := Expire(cfg.Key(client), late), AllowN(client, slow.burst, late);
    ops := [first] + ([take] + ([slower] + ([drop] + [again])));
    ViewAfterOwnCall(map[], cfg, first, client);
    DrainedThenOverridden(client, cfg, Apply(map[], cfg, first), drained, slow);
    DifferenceShows(client, cfg, first, take, slower, drop, again);
    FillsWhileKept(drained);
    FiveInOrder(first, take, slower, drop, again);
    assert ops == [first, take, slower, drop, again];
  }

  // ----- exactly when expiry is invisible -----

  lemma FillingHidesExpiry(client: string, cfg: Config, limits: iset<Limit>)
    requires cfg.default.Valid() && AllValid(limits) && FillsBeforeExpiry(cfg, limits)
    ensures ExpiryUnseen(client, cfg, limits)
  {
    forall ops: seq<Op>, start: int ensures ExpiryUnseenIn(client, cfg, limits, ops, start) {
      if Ascending(start, ops) && Proper(client, limits, ops) {
        ExpiringRunsAlike(client, cfg, limits, map[], map[], ops, start);
      }
    }
  }

  lemma UnseenMeansFilling(client: string, cfg: Config, limits: iset<Limit>, drained: Limit)
    requires cfg.default.Valid() && AllValid(limits) && (drained == cfg.default || drained in limits)
    requires ExpiryUnseen(client, cfg, limits) && drained.Valid()
    ensures AllFillIn(limits, Kept(drained))
  {
    forall slow | slow in limits ensures FillsIn(slow, Kept(drained)) {
      if !FillsIn(slow, Kept(drained)) {
        var ops := SlowOverrideShowsExpiry(client, cfg, limits, drained, slow);
      }
    }
  }

  /** Expiry is invisible in every run exactly when each override the client may be given
      fills within the time for which a bucket is kept under the default or any other. */
  lemma ExpiryIsInvisibleIff(client: string, cfg: Config, limits: iset<Limit>)
    requires cfg.default.Valid() && AllValid(limits)
    ensures ExpiryUnseen(client, cfg, limits) <==> FillsBeforeExpiry(cfg, limits)
  {
    if FillsBeforeExpiry(cfg, limits) {
      FillingHidesExpiry(client, cfg, limits);
    } else {
      if ExpiryUnseen(client, cfg, limits) {
        UnseenMeansFilling(client, cfg, limits, cfg.default);
        forall l | l in limits ensures AllFillIn(limits, Kept(l)) {
          UnseenMeansFilling(client, cfg, limits, l);
        }
      }
    }
  }

  /** An override that fills within the shortest time any bucket is kept: two seconds and a tick. */
  predicate Quick(limit: Limit) {
    limit.Valid() && FillsIn(limit, 2 * MILLIS_PER_SECOND + 1)
  }

  lemma QuickFillsWhileKept(quick: Limit, kept: Limit)
    requires Quick(quick) && kept.Valid()
    ensures FillsIn(quick, Kept(kept))
  {
    FillsWhileKept(kept);
    GainMonotone(quick.P(), 2 * MILLIS_PER_SECOND + 1, Kept(kept));
  }

  /** With quick overrides it is invisible whatever the default. */
  lemma ExpiryIsInvisible(client: string, cfg: Config, limits: iset<Limit>)
    requires cfg.default.Valid() && forall l :: l in limits ==> Quick(l)
    ensures ExpiryUnseen(client, cfg, limits)
  {
    forall kept: Limit | kept.Valid() ensures AllFillIn(limits, Kept(kept)) {
      forall l | l in limits ensures FillsIn(l, Kept(kept)) {
        QuickFillsWhileKept(l, kept);
      }
    }
    ExpiryIsInvisibleIff(client, cfg, limits);
  }

  /** The overrides the middleware sets, with burst equal to rate, are always quick enough. */
  lemma MiddlewareLimitsAreQuick(limit: int)
    requires limit > 0
    ensures Quick(Limit(limit, limit as real))
  {
  }

  /** A limit kept for no more than two seconds, as one token at a hundred a second is. */
  lemma BriefLimit(brief: Limit)
    requires brief == Limit(1, 100.0)
    ensures Quick(brief) && Kept(brief) == 2 * MILLIS_PER_SECOND + 1
  {
  }

  /** Given besides any quick overrides one more, expiry is invisible exactly if that is quick. */
  lemma ExpiryIsInvisibleIffQuick(client: string, cfg: Config, other: Limit)
    requires cfg.default.Valid() && other.Valid()
    ensures ExpiryUnseen(client, cfg, iset l: Limit | Quick(l) || l == other) <==> Quick(other)
  {
    var limits := iset l: Limit | Quick(l) || l == other;
    if Quick(other) {
      ExpiryIsInvisible(client, cfg, limits);
    } else {
      BriefLimit(Limit(1, 100.0));
      assert Limit(1, 100.0) in limits && !AllFillIn(limits, Kept(Limit(1, 100.0)));
      ExpiryIsInvisibleIff(client, cfg, limits);
    }
  }

  /** Given no override but one, it is invisible exactly if that one fills in the time for
      which a bucket is kept under the default. */
  lemma ExpiryIsInvisibleIffFillsInDefaultTime(client: string, cfg: Config, only: Limit)
    requires cfg.default.Valid() && only.Valid()
    ensures ExpiryUnseen(client, cfg, iset{only}) <==> FillsIn(only, Kept(cfg.default))
  {
    FillsWhileKept(only);
    ExpiryIsInvisibleIff(client, cfg, iset{only});
    assert only in iset{only};
  }
}
