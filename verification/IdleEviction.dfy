/** When evicting idle buckets cannot be noticed. */
module IdleEviction {
  import opened TokenBucketModel
  import opened TokenBuckets
  import opened LimiterOps
  import opened MemoryLimiterModel

  // ----- whole calls -----

  /** A call as one step: AllowN fetches and consumes at the same instant. SetLimit with
      parameters the bucket constructor rejects changes nothing. */
  function Apply(sys: System, cfg: Config, op: Op): System
    requires sys.Valid() && cfg.Valid()
    ensures Apply(sys, cfg, op).Valid()
  {
    match op
    case AllowN(c, n, at) =>
      FetchKeepsValid(sys, cfg, c, at);
      var fetched := Fetch(sys, cfg, c, at);
      ConsumeKeepsValid(fetched, fetched.cells[c].id, n, at);
      Consume(fetched, fetched.cells[c].id, n, at)
    case Tokens(c, at) =>
      LookKeepsValid(sys, c, at);
      Look(sys, c, at)
    case Reset(c, _) => Drop(sys, c)
    case SetLimit(c, burst, rps, at) =>
      if burst >= 1 && rps > 0.0 then
        CreateKeepsValid(sys, c, NanoParams(burst, rps), at);
        Create(sys, c, NanoParams(burst, rps), at)
      else sys
    case Cleanup(at) => Evict(sys, cfg, at)
    case Expire(_, _) => sys
  }

  function Reply(sys: System, cfg: Config, op: Op): Answer
    requires sys.Valid() && cfg.Valid()
  {
    match op
    case AllowN(c, n, at) =>
      FetchKeepsValid(sys, cfg, c, at);
      var fetched := Fetch(sys, cfg, c, at);
      Verdict(Consumes(fetched, fetched.cells[c].id, n, at))
    case Tokens(c, at) => Count(ShownTokens(sys, cfg, c, at))
    case _ => Done
  }

  /** The answers to one client's calls, in order. */
  function RepliesTo(client: string, sys: System, cfg: Config, ops: seq<Op>): seq<Answer>
    requires sys.Valid() && cfg.Valid()
    decreases |ops|
  {
    if ops == [] then []
    else
      (if Concerns(ops[0], client) then [Reply(sys, cfg, ops[0])] else [])
      + RepliesTo(client, Apply(sys, cfg, ops[0]), cfg, ops[1..])
  }

  /** The same calls made to a limiter that never evicts. */
  function WithoutCleanup(ops: seq<Op>): seq<Op> {
    if ops == [] then []
    else (if ops[0].Cleanup? then [] else [ops[0]]) + WithoutCleanup(ops[1..])
  }

  predicate NeverGivenLimit(client: string, ops: seq<Op>) {
    forall i :: 0 <= i < |ops| ==> !(ops[i].SetLimit? && ops[i].client == client)
  }

  // ----- what one client can see -----

  datatype View = Absent | Present(params: Params, bucket: Bucket, lastUsed: int)

  function ViewOf(sys: System, client: string): View
    requires sys.Valid()
  {
    if client in sys.cells then
      var slot := sys.pool[sys.cells[client].id];
      Present(slot.params, slot.bucket, sys.cells[client].lastUsed)
    else Absent
  }

  function Fetched(cfg: Config, v: View, now: int): View {
    if v.Absent? then Present(cfg.P(), Full(cfg.P(), now), now) else v.(lastUsed := now)
  }

  function Seen(cfg: Config, v: View, op: Op): View {
    match op
    case AllowN(_, n, at) =>
      var f := Fetched(cfg, v, at);
      f.(bucket := Taken(f.params, f.bucket, at, n))
    case Tokens(_, at) => if v.Absent? then v else v.(bucket := Refill(v.params, v.bucket, at))
    case Reset(_, _) => Absent
    case SetLimit(_, burst, rps, at) =>
      if burst >= 1 && rps > 0.0 then
        Present(NanoParams(burst, rps), Full(NanoParams(burst, rps), at), at)
      else v
    case Cleanup(at) => if v.Present? && Idle(cfg, v.lastUsed, at) then Absent else v
    case Expire(_, _) => v
  }

  /** A call moves its own client's view as `Seen` says and no other client's at all. */
  lemma ViewAfter(sys: System, cfg: Config, op: Op, client: string)
    requires sys.Valid() && cfg.Valid()
    ensures ViewOf(Apply(sys, cfg, op), client)
         == if op.Cleanup? || Concerns(op, client) then Seen(cfg, ViewOf(sys, client), op)
            else ViewOf(sys, client)
  {
  }

  function Ran(sys: System, cfg: Config, ops: seq<Op>): (sys': System)
    requires sys.Valid() && cfg.Valid()
    ensures sys'.Valid()
  {
    if ops == [] then sys else Apply(Ran(sys, cfg, ops[..|ops| - 1]), cfg, ops[|ops| - 1])
  }

  /** When the client last took tokens, or was given a limit a bucket can have, unless it has
      been reset since or found unused for more than two cleanup intervals. */
  function LastUse(cfg: Config, client: string, ops: seq<Op>): Option<int> {
    if ops == [] then None
    else
      var op, before := ops[|ops| - 1], LastUse(cfg, client, ops[..|ops| - 1]);
      match op
      case AllowN(c, _, at) => if c == client then Some(at) else before
      case SetLimit(c, burst, rps, at) => if c == client && burst >= 1 && rps > 0.0 then Some(at) else before
      case Reset(c, _) => if c == client then None else before
      case Cleanup(at) => if before.Some? && before.value < at - 2 * cfg.interval then None else before
      case _ => before
  }

  /** The index holds exactly the clients in use, with the time of their last use: taking for
      nothing counts as use, and looking does not. */
  lemma {:induction false} IndexMirrorsHistory(cfg: Config, client: string, ops: seq<Op>)
    requires cfg.Valid()
    ensures var v := ViewOf(Ran(Empty, cfg, ops), client);
      LastUse(cfg, client, ops) == if v.Present? then Some(v.lastUsed) else None
  {
    if ops != [] {
      var before := ops[..|ops| - 1];
      IndexMirrorsHistory(cfg, client, before);
      ViewAfter(Ran(Empty, cfg, before), cfg, ops[|ops| - 1], client);
    }
  }

  /** Tokens the client could draw now; a client without a bucket would get a full one. */
  function Available(cfg: Config, v: View, now: int): real {
    if v.Absent? then cfg.burst as real else Level(v.params, v.bucket, now)
  }

  lemma ReplyFromView(sys: System, cfg: Config, op: Op)
    requires sys.Valid() && cfg.Valid()
    ensures op.AllowN? ==>
      Reply(sys, cfg, op) == Verdict(op.n <= 0 || Available(cfg, ViewOf(sys, op.client), op.at) >= op.n as real)
    ensures op.Tokens? ==>
      Reply(sys, cfg, op) == Count(Available(cfg, ViewOf(sys, op.client), op.at).Floor)
  {
  }

  /** A bucket of the default kind that has, at `now`, at least what accrued since its last use. */
  predicate Good(cfg: Config, v: View, now: int) {
    v.Present? ==>
      && v.params == cfg.P() && v.bucket.Within(v.params)
      && v.bucket.last <= now && v.lastUsed <= now
      && Level(v.params, v.bucket, now) >= Clamp(v.params, Gain(v.params, now - v.lastUsed))
  }

  /** Two views nobody can tell apart from `now` on. */
  predicate Alike(cfg: Config, v: View, w: View, now: int) {
    Good(cfg, v, now) && Good(cfg, w, now) && Available(cfg, v, now) == Available(cfg, w, now)
  }

  /** A bucket idle long enough to be evicted would have filled up by then. */
  predicate FillsBeforeEviction(cfg: Config) {
    Gain(cfg.P(), 2 * cfg.interval + 1) >= cfg.burst as real
  }

  lemma GoodLater(cfg: Config, v: View, t1: int, t2: int)
    requires cfg.Valid() && Good(cfg, v, t1) && t1 <= t2
    ensures Good(cfg, v, t2)
    ensures Available(cfg, v, t2) == Clamp(cfg.P(), Available(cfg, v, t1) + Gain(cfg.P(), t2 - t1))
  {
    var p := cfg.P();
    GainMonotone(p, 0, t2 - t1);
    if v.Present? {
      LevelFromLevel(p, v.bucket, t1, t2);
      GainAdds(p, t1 - v.lastUsed, t2 - t1);
      assert t1 - v.lastUsed + (t2 - t1) == t2 - v.lastUsed;
    }
  }

  lemma AlikeLater(cfg: Config, v: View, w: View, t1: int, t2: int)
    requires cfg.Valid() && Alike(cfg, v, w, t1) && t1 <= t2
    ensures Alike(cfg, v, w, t2)
  {
    GoodLater(cfg, v, t1, t2);
    GoodLater(cfg, w, t1, t2);
  }

  /** What a request for n tokens takes out of a level. */
  function Charge(level: real, n: int): real {
    if n > 0 && level >= n as real then n as real else 0.0
  }

  lemma GoodAfterCall(cfg: Config, v: View, op: Op)
    requires cfg.Valid() && Good(cfg, v, op.at) && (op.AllowN? || op.Tokens? || op.Reset?)
    ensures Good(cfg, Seen(cfg, v, op), op.at)
    ensures op.AllowN? ==>
      Available(cfg, Seen(cfg, v, op), op.at) == Available(cfg, v, op.at) - Charge(Available(cfg, v, op.at), op.n)
    ensures op.Tokens? ==> Available(cfg, Seen(cfg, v, op), op.at) == Available(cfg, v, op.at)
  {
  }

  lemma AlikeAfterCall(cfg: Config, v: View, w: View, op: Op)
    requires cfg.Valid() && Alike(cfg, v, w, op.at) && (op.AllowN? || op.Tokens? || op.Reset?)
    ensures Alike(cfg, Seen(cfg, v, op), Seen(cfg, w, op), op.at)
  {
    GoodAfterCall(cfg, v, op);
    GoodAfterCall(cfg, w, op);
  }

  lemma AlikeAfterCleanup(cfg: Config, v: View, w: View, op: Op)
    requires cfg.Valid() && FillsBeforeEviction(cfg) && op.Cleanup?
    requires Alike(cfg, v, w, op.at)
    ensures Alike(cfg, Seen(cfg, v, op), w, op.at)
  {
    if v.Present? && Idle(cfg, v.lastUsed, op.at) {
      GainMonotone(cfg.P(), 2 * cfg.interval + 1, op.at - v.lastUsed);
      RefillStaysWithin(v.params, v.bucket, op.at);
    }
  }

  lemma {:induction false} EvictingRunsAlike(client: string, cfg: Config, sys: System, kept: System, ops: seq<Op>, now: int)
    requires cfg.Valid() && FillsBeforeEviction(cfg) && sys.Valid() && kept.Valid()
    requires Alike(cfg, ViewOf(sys, client), ViewOf(kept, client), now)
    requires Ascending(now, ops)
    requires NeverGivenLimit(client, ops)
    ensures RepliesTo(client, sys, cfg, ops) == RepliesTo(client, kept, cfg, WithoutCleanup(ops))
    decreases |ops|
  {
    if ops != [] {
      var op := ops[0];
      var v, w := ViewOf(sys, client), ViewOf(kept, client);
      AlikeLater(cfg, v, w, now, op.at);
      ViewAfter(sys, cfg, op, client);
      ViewAfter(kept, cfg, op, client);
      if op.Cleanup? {
        AlikeAfterCleanup(cfg, v, w, op);
        EvictingRunsAlike(client, cfg, Apply(sys, cfg, op), kept, ops[1..], op.at);
        assert WithoutCleanup(ops) == WithoutCleanup(ops[1..]);
      } else {
        if Concerns(op, client) {
          assert op == ops[0];
          AlikeAfterCall(cfg, v, w, op);
          ReplyFromView(sys, cfg, op);
          ReplyFromView(kept, cfg, op);
        }
        EvictingRunsAlike(client, cfg, Apply(sys, cfg, op), Apply(kept, cfg, op), ops[1..], op.at);
        assert WithoutCleanup(ops)[0] == op && WithoutCleanup(ops)[1..] == WithoutCleanup(ops[1..]);
      }
    }
  }

  /** A client never given SetLimit gets the answers of a limiter that never evicts,
      whenever cleanup runs and whatever other clients do. */
  ghost predicate EvictionUnseenIn(cfg: Config, client: string, ops: seq<Op>, start: int)
    requires cfg.Valid()
  {
    Ascending(start, ops) && NeverGivenLimit(client, ops)
    ==> RepliesTo(client, Empty, cfg, ops) == RepliesTo(client, Empty, cfg, WithoutCleanup(ops))
  }

  lemma RepliesToOne(client: string, sys: System, cfg: Config, op: Op)
    requires cfg.Valid() && sys.Valid() && Concerns(op, client)
    ensures RepliesTo(client, sys, cfg, [op]) == [Reply(sys, cfg, op)]
  {
  }

  lemma StruckOut(first: Op, sweep: Op, again: Op)
    requires !first.Cleanup? && sweep.Cleanup? && !again.Cleanup?
    ensures WithoutCleanup([first, sweep, again]) == [first, again]
  {
    assert [first, sweep, again][1..] == [sweep, again] && [sweep, again][1..] == [again] && [again][1..] == [];
    assert WithoutCleanup([again]) == [again];
    assert WithoutCleanup([sweep, again]) == [again];
  }

  /** A drained bucket that is evicted before it has refilled comes back full too early. */
  lemma DrainedThenSwept(cfg: Config, client: string, late: int)
    requires cfg.Valid() && !FillsBeforeEviction(cfg) && late == 2 * cfg.interval + 1
    ensures var drained := Apply(Empty, cfg, AllowN(client, cfg.burst, 0));
      var again := AllowN(client, cfg.burst, late);
      && Reply(drained, cfg, again) == Verdict(false)
      && Reply(Apply(drained, cfg, Cleanup(late)), cfg, again) == Verdict(true)
  {
  }

  lemma EvictionShows(cfg: Config, client: string) returns (ops: seq<Op>)
    requires cfg.Valid() && !FillsBeforeEviction(cfg)
    ensures !EvictionUnseenIn(cfg, client, ops, 0)
  {
    var late := 2 * cfg.interval + 1;
    var first, sweep, again := AllowN(client, cfg.burst, 0), Cleanup(late), AllowN(client, cfg.burst, late);
    ops := [first, sweep, again];
    var drained := Apply(Empty, cfg, first);
    var swept := Apply(drained, cfg, sweep);
    DrainedThenSwept(cfg, client, late);
    RepliesToOne(client, swept, cfg, again);
    RepliesToOne(client, drained, cfg, again);
    StruckOut(first, sweep, again);
    assert ops[1..] == [sweep, again] && [sweep, again][1..] == [again] && [first, again][1..] == [again];
    var hello := [Reply(Empty, cfg, first)];
    assert RepliesTo(client, Empty, cfg, ops) == hello + [Verdict(true)];
    assert RepliesTo(client, Empty, cfg, [first, again]) == hello + [Verdict(false)];
    assert (hello + [Verdict(true)])[1] != (hello + [Verdict(false)])[1];
    assert Ascending(late, [again]) && Ascending(0, [sweep, again]);
  }

  /** Idle eviction is invisible in every run exactly when a drained bucket refills within
      the shortest idle time that gets it evicted. */
  lemma EvictionIsInvisibleIff(cfg: Config)
    requires cfg.Valid()
    ensures FillsBeforeEviction(cfg) <==>
      forall client: string, ops: seq<Op>, start: int :: EvictionUnseenIn(cfg, client, ops, start)
  {
    if FillsBeforeEviction(cfg) {
      forall client: string, ops: seq<Op>, start: int ensures EvictionUnseenIn(cfg, client, ops, start) {
        if Ascending(start, ops) && NeverGivenLimit(client, ops) {
          EvictingRunsAlike(client, cfg, Empty, Empty, ops, start);
        }
      }
    } else {
      var ops := EvictionShows(cfg, "");
    }
  }

  /** Refilling within two cleanup intervals is enough. */
  lemma TwoIntervalsSuffice(cfg: Config)
    requires cfg.Valid()
    requires cfg.rate * ((2 * cfg.interval) as real / NANOS_PER_SECOND) >= cfg.burst as real
    ensures FillsBeforeEviction(cfg)
  {
  }
}
