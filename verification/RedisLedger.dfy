/** Bookkeeping for the Redis script, whose clock may also step back. */
module RedisLedger {
  import opened TokenBucketModel
  import opened BucketConformance
  import opened LimiterOps
  import opened RedisLimiterModel

  /** A stored bucket after one request; a request for nothing never reaches the script. */
  function Step(limit: Limit, b: Bucket, r: Request): Bucket {
    if r.n <= 0 then b else ScriptTaken(limit, Some(b), r.n, r.at)
  }

  function Ran(limit: Limit, b: Bucket, rs: seq<Request>): Bucket
    decreases |rs|
  {
    if rs == [] then b else Ran(limit, Step(limit, b, rs[0]), rs[1..])
  }

  function Paid(limit: Limit, b: Bucket, r: Request): int {
    if r.n > 0 && ScriptGrants(limit, Some(b), r.n, r.at) then r.n else 0
  }

  function TotalPaid(limit: Limit, b: Bucket, rs: seq<Request>): int
    decreases |rs|
  {
    if rs == [] then 0 else Paid(limit, b, rs[0]) + TotalPaid(limit, Step(limit, b, rs[0]), rs[1..])
  }

  /** Milliseconds by which this request moves the recorded clock forward; 0 if it moves it back. */
  function Forward(b: Bucket, r: Request): int {
    if r.n <= 0 || r.at < b.last then 0 else r.at - b.last
  }

  function TotalForward(limit: Limit, b: Bucket, rs: seq<Request>): int
    decreases |rs|
  {
    if rs == [] then 0 else Forward(b, rs[0]) + TotalForward(limit, Step(limit, b, rs[0]), rs[1..])
  }

  /** Tokens this request's refill loses to the clamp. */
  function Spilled(limit: Limit, b: Bucket, r: Request): real {
    var raw := b.level + Gain(limit.P(), Forward(b, r));
    if r.n > 0 && raw > limit.burst as real then raw - limit.burst as real else 0.0
  }

  function TotalSpilled(limit: Limit, b: Bucket, rs: seq<Request>): real
    decreases |rs|
  {
    if rs == [] then 0.0 else Spilled(limit, b, rs[0]) + TotalSpilled(limit, Step(limit, b, rs[0]), rs[1..])
  }

  /** No request that reaches the script finds the clock behind the last recorded reading. */
  predicate NeverBack(limit: Limit, b: Bucket, rs: seq<Request>)
    decreases |rs|
  {
    rs != [] ==> (rs[0].n > 0 ==> b.last <= rs[0].at) && NeverBack(limit, Step(limit, b, rs[0]), rs[1..])
  }

  lemma StepConserves(limit: Limit, b: Bucket, r: Request)
    requires limit.Valid() && b.Within(limit.P())
    ensures Step(limit, b, r).Within(limit.P()) && Forward(b, r) >= 0
    ensures Step(limit, b, r).level + Paid(limit, b, r) as real + Spilled(limit, b, r)
         == b.level + Gain(limit.P(), Forward(b, r))
    ensures Step(limit, b, r).last - b.last <= Forward(b, r)
    ensures Step(limit, b, r).last - b.last == Forward(b, r) <==> (r.n > 0 ==> b.last <= r.at)
  {
  }

  /** Conservation for any server clock: what accrued is the rate times the sum of the
      forward steps of the clock, and that sum is the net change of the recorded time
      exactly when the clock never stepped back. */
  lemma {:induction false} ScriptConservesTokens(limit: Limit, b: Bucket, rs: seq<Request>)
    requires limit.Valid() && b.Within(limit.P())
    ensures Ran(limit, b, rs).Within(limit.P())
    ensures Ran(limit, b, rs).level + TotalPaid(limit, b, rs) as real + TotalSpilled(limit, b, rs)
         == b.level + Gain(limit.P(), TotalForward(limit, b, rs))
    ensures Ran(limit, b, rs).last - b.last <= TotalForward(limit, b, rs)
    ensures Ran(limit, b, rs).last - b.last == TotalForward(limit, b, rs) <==> NeverBack(limit, b, rs)
    decreases |rs|
  {
    if rs == [] {
      assert Gain(limit.P(), 0) == 0.0;
    } else {
      StepConserves(limit, b, rs[0]);
      ScriptConservesTokens(limit, Step(limit, b, rs[0]), rs[1..]);
      GainAdds(limit.P(), Forward(b, rs[0]), TotalForward(limit, Step(limit, b, rs[0]), rs[1..]));
    }
  }

  /** At one instant, a request for n > 0 succeeds exactly when the query script shows at
      least n, whatever is stored. */
  lemma ScriptGrantsIffShown(db: Database, cfg: Config, key: string, n: int, now: int)
    requires n > 0
    ensures ScriptGrants(Effective(db, cfg, key), At(db, key).bucket, n, now)
       <==> n <= ShownTokens(db, cfg, key, now)
  {
  }
}
