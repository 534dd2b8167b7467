/** The in-memory limiter and the Redis limiter answer alike. */
module BackendAgreement {
  import opened TokenBucketModel
  import opened TokenBuckets
  import opened LimiterOps
  import M = MemoryLimiterModel
  import Mem = IdleEviction
  import R = RedisLimiterModel
  import Red = RedisExpiry

  const NANOS_PER_MILLI := 1_000_000

  /** The same call, timed by a clock in nanoseconds instead of milliseconds. */
  function InNanos(op: Op): Op {
    op.(at := op.at * NANOS_PER_MILLI)
  }

  function AllInNanos(ops: seq<Op>): seq<Op> {
    if ops == [] then [] else [InNanos(ops[0])] + AllInNanos(ops[1..])
  }

  /** Both limiters were configured with the same burst and rate. */
  predicate SameLimit(mem: M.Config, red: R.Config) {
    mem.burst == red.default.burst && mem.rate == red.default.rps
  }

  function Available(red: R.Config, w: Red.View, now: int): real {
    R.Current(red.default.P(), w.bucket, now).level
  }

  /** A Redis view under the default limit. */
  predicate Plain(red: R.Config, w: Red.View, now: int) {
    w.over.None? && (w.bucket.Some? ==> w.bucket.value.Within(red.default.P()) && w.bucket.value.last <= now)
  }

  predicate Agree(mem: M.Config, red: R.Config, v: Mem.View, w: Red.View, now: int) {
    Mem.Good(mem, v, now * NANOS_PER_MILLI) && Plain(red, w, now)
    && Mem.Available(mem, v, now * NANOS_PER_MILLI) == Available(red, w, now)
  }

  lemma GainsAgree(mem: M.Config, red: R.Config, d: int)
    requires SameLimit(mem, red)
    ensures Gain(mem.P(), d * NANOS_PER_MILLI) == Gain(red.default.P(), d)
  {
  }

  lemma PlainLater(red: R.Config, w: Red.View, t1: int, t2: int)
    requires red.default.Valid() && Plain(red, w, t1) && t1 <= t2
    ensures Plain(red, w, t2)
    ensures Available(red, w, t2) == Clamp(red.default.P(), Available(red, w, t1) + Gain(red.default.P(), t2 - t1))
  {
  }

  lemma AgreeLater(mem: M.Config, red: R.Config, v: Mem.View, w: Red.View, t1: int, t2: int)
    requires mem.Valid() && red.default.Valid() && SameLimit(mem, red)
    requires Agree(mem, red, v, w, t1) && t1 <= t2
    ensures Agree(mem, red, v, w, t2)
  {
    Mem.GoodLater(mem, v, t1 * NANOS_PER_MILLI, t2 * NANOS_PER_MILLI);
    PlainLater(red, w, t1, t2);
    GainsAgree(mem, red, t2 - t1);
    assert t2 * NANOS_PER_MILLI - t1 * NANOS_PER_MILLI == (t2 - t1) * NANOS_PER_MILLI;
  }

  lemma PlainAfterCall(red: R.Config, w: Red.View, op: Op)
    requires red.default.Valid() && Plain(red, w, op.at) && (op.AllowN? || op.Tokens? || op.Reset?)
    ensures Plain(red, Red.Seen(red, w, op), op.at)
    ensures op.AllowN? ==>
      Available(red, Red.Seen(red, w, op), op.at)
      == Available(red, w, op.at) - Mem.Charge(Available(red, w, op.at), op.n)
    ensures op.Tokens? ==> Available(red, Red.Seen(red, w, op), op.at) == Available(red, w, op.at)
    ensures op.Reset? ==> Available(red, Red.Seen(red, w, op), op.at) == red.default.burst as real
  {
    var p := red.default.P();
    assert Gain(p, 0) == 0.0;
    if w.bucket.Some? {
      GainMonotone(p, 0, op.at - w.bucket.value.last);
    }
  }

  lemma ReplyFromView(db: R.Database, red: R.Config, op: Op)
    requires R.ValidDb(db) && red.default.Valid() && (op.AllowN? || op.Tokens?)
    requires Plain(red, Red.ViewOf(db, red, op.client), op.at)
    ensures var level := Available(red, Red.ViewOf(db, red, op.client), op.at);
      Red.Reply(db, red, op)
      == if op.AllowN? then Verdict(op.n <= 0 || level >= op.n as real) else Count(level.Floor)
  {
  }

  lemma AgreeAfterCall(mem: M.Config, red: R.Config, sys: M.System, db: R.Database, op: Op)
    requires mem.Valid() && red.default.Valid() && SameLimit(mem, red)
    requires sys.Valid() && R.ValidDb(db) && (op.AllowN? || op.Tokens? || op.Reset?)
    requires Agree(mem, red, Mem.ViewOf(sys, op.client), Red.ViewOf(db, red, op.client), op.at)
    ensures Mem.Reply(sys, mem, InNanos(op)) == Red.Reply(db, red, op)
    ensures Agree(mem, red, Mem.ViewOf(Mem.Apply(sys, mem, InNanos(op)), op.client),
                  Red.ViewOf(Red.Apply(db, red, op), red, op.client), op.at)
  {
    Mem.GoodAfterCall(mem, Mem.ViewOf(sys, op.client), InNanos(op));
    Mem.ViewAfter(sys, mem, InNanos(op), op.client);
    Mem.ReplyFromView(sys, mem, InNanos(op));
    PlainAfterCall(red, Red.ViewOf(db, red, op.client), op);
    Red.ViewAfterOwnCall(db, red, op, op.client);
    if !op.Reset? {
      ReplyFromView(db, red, op);
    }
  }

  /** The two lists of calls after the housekeeping each backend does not have is struck. */
  lemma {:induction false} KeepingRunsAgree(client: string, mem: M.Config, red: R.Config, sys: M.System, db: R.Database,
                                            ops: seq<Op>, now: int)
    requires mem.Valid() && red.default.Valid() && SameLimit(mem, red) && sys.Valid() && R.ValidDb(db)
    requires Agree(mem, red, Mem.ViewOf(sys, client), Red.ViewOf(db, red, client), now)
    requires Ascending(now, ops) && Red.Proper(client, iset{}, ops) && Mem.NeverGivenLimit(client, ops)
    ensures Mem.RepliesTo(client, sys, mem, Mem.WithoutCleanup(AllInNanos(ops)))
         == Red.RepliesTo(client, db, red, Red.WithoutExpire(ops))
    decreases |ops|
  {
    if ops != [] {
      var op, rest := ops[0], ops[1..];
      assert Red.ProperOp(client, iset{}, op);
      AgreeLater(mem, red, Mem.ViewOf(sys, client), Red.ViewOf(db, red, client), now, op.at);
      var sys' := if op.Cleanup? then sys else Mem.Apply(sys, mem, InNanos(op));
      var db' := if op.Expire? then db else Red.Apply(db, red, op);
      assert Agree(mem, red, Mem.ViewOf(sys', client), Red.ViewOf(db', red, client), op.at) by {
        if Concerns(op, client) {
          AgreeAfterCall(mem, red, sys, db, op);
        } else {
          Mem.ViewAfter(sys, mem, InNanos(op), client);
          if !op.Cleanup? && !op.Expire? {
            Red.ViewAfterOthersCall(db, red, op, op.client, client);
          }
        }
      }
      KeepingRunsAgree(client, mem, red, sys', db', rest, op.at);
      if Concerns(op, client) {
        AgreeAfterCall(mem, red, sys, db, op);
      }
      MemoryStep(client, mem, sys, op, rest);
      RedisStep(client, red, db, op, rest);
      assert ops == [op] + rest;
    }
  }

  lemma MemoryStep(client: string, mem: M.Config, sys: M.System, op: Op, rest: seq<Op>)
    requires mem.Valid() && sys.Valid()
    ensures Mem.RepliesTo(client, sys, mem, Mem.WithoutCleanup(AllInNanos([op] + rest)))
         == (if Concerns(op, client) then [Mem.Reply(sys, mem, InNanos(op))] else [])
            + Mem.RepliesTo(client, if op.Cleanup? then sys else Mem.Apply(sys, mem, InNanos(op)), mem,
                            Mem.WithoutCleanup(AllInNanos(rest)))
  {
    assert ([op] + rest)[1..] == rest;
    assert AllInNanos([op] + rest)[1..] == AllInNanos(rest);
    var tail := Mem.WithoutCleanup(AllInNanos(rest));
    if op.Cleanup? {
      assert Mem.WithoutCleanup(AllInNanos([op] + rest)) == tail;
    } else {
      assert Mem.WithoutCleanup(AllInNanos([op] + rest))[1..] == tail;
    }
  }

  lemma RedisStep(client: string, red: R.Config, db: R.Database, op: Op, rest: seq<Op>)
    requires red.default.Valid() && R.ValidDb(db)
    ensures Red.RepliesTo(client, db, red, Red.WithoutExpire([op] + rest))
         == (if Concerns(op, client) then [Red.Reply(db, red, op)] else [])
            + Red.RepliesTo(client, if op.Expire? then db else Red.Apply(db, red, op), red, Red.WithoutExpire(rest))
  {
    Red.RepliesUnfold(client, db, red, op, rest);
    if op.Expire? {
      assert Red.WithoutExpire([op] + rest) == Red.WithoutExpire(rest);
    } else {
      Red.RepliesUnfold(client, db, red, op, Red.WithoutExpire(rest));
    }
  }

  lemma {:induction false} NanosKeepOrder(client: string, start: int, ops: seq<Op>)
    requires Ascending(start, ops) && Mem.NeverGivenLimit(client, ops)
    ensures Ascending(start * NANOS_PER_MILLI, AllInNanos(ops))
    ensures |AllInNanos(ops)| == |ops| && Mem.NeverGivenLimit(client, AllInNanos(ops))
    ensures (forall i :: 0 <= i < |ops| ==> !ops[i].Cleanup?) ==>
      Mem.WithoutCleanup(AllInNanos(ops)) == AllInNanos(ops)
    decreases |ops|
  {
    if ops != [] {
      NanosKeepOrder(client, ops[0].at, ops[1..]);
      assert AllInNanos(ops)[1..] == AllInNanos(ops[1..]);
    }
  }

  /** The backends agree: with the same burst and rate and a clock in whole milliseconds, a
      client never given SetLimit gets the same answers from both, call by call, while the
      one evicts idle buckets and the other expires keys at arbitrary moments. Eviction must
      be one that cannot be noticed, or not happen. */
  lemma BackendsAgree(client: string, mem: M.Config, red: R.Config, ops: seq<Op>, start: int)
    requires mem.Valid() && red.default.Valid() && SameLimit(mem, red)
    requires Ascending(start, ops) && Red.Proper(client, iset{}, ops) && Mem.NeverGivenLimit(client, ops)
    requires Mem.FillsBeforeEviction(mem) || forall i :: 0 <= i < |ops| ==> !ops[i].Cleanup?
    ensures Mem.RepliesTo(client, M.Empty, mem, AllInNanos(ops)) == Red.RepliesTo(client, map[], red, ops)
  {
    assert Gain(red.default.P(), 0) == 0.0;
    KeepingRunsAgree(client, mem, red, M.Empty, map[], ops, start);
    NanosKeepOrder(client, start, ops);
    if Mem.FillsBeforeEviction(mem) {
      Mem.EvictingRunsAlike(client, mem, M.Empty, M.Empty, AllInNanos(ops), start * NANOS_PER_MILLI);
    }
    Red.ExpiryIsInvisible(client, red, iset{});
    assert Red.ExpiryUnseenIn(client, red, iset{}, ops, start);
  }
}
