/** The token bucket as a value: a level, the instant it was last refilled, and the
    arithmetic of lazy refill with clamping. The unit of time is an abstract tick, so the
    same arithmetic serves the in-process bucket (nanoseconds) and the Redis scripts
    (milliseconds); `perTick` is the refill rate in tokens per tick. */
module TokenBucketModel {

  datatype Params = Params(capacity: int, perTick: real) {
    predicate Valid() {
      capacity >= 1 && perTick > 0.0
    }
  }

  datatype Bucket = Bucket(level: real, last: int) {
    predicate Within(p: Params) {
      0.0 <= level <= p.capacity as real
    }
  }

  function Full(p: Params, now: int): Bucket {
    Bucket(p.capacity as real, now)
  }

  function Gain(p: Params, ticks: int): real {
    p.perTick * ticks as real
  }

  function Clamp(p: Params, level: real): real {
    if level > p.capacity as real then p.capacity as real else level
  }

  /** A clock that has not advanced leaves the bucket, and its timestamp, alone. */
  function Refill(p: Params, b: Bucket, now: int): Bucket {
    if now <= b.last then b
    else Bucket(Clamp(p, b.level + Gain(p, now - b.last)), now)
  }

  function Level(p: Params, b: Bucket, now: int): real {
    Refill(p, b, now).level
  }

  predicate Grants(p: Params, b: Bucket, now: int, n: int) {
    n <= 0 || Level(p, b, now) >= n as real
  }

  /** The bucket after a request for n tokens. A request for nothing does not even refill. */
  function Taken(p: Params, b: Bucket, now: int, n: int): Bucket {
    if n <= 0 then b
    else
      var r := Refill(p, b, now);
      if r.level >= n as real then r.(level := r.level - n as real) else r
  }

  /** Whole tokens that an observer is shown. */
  function Tokens(p: Params, b: Bucket, now: int): int {
    Level(p, b, now).Floor
  }

  // ----- arithmetic of the refill -----

  lemma GainMonotone(p: Params, d: int, e: int)
    requires p.Valid() && d <= e
    ensures Gain(p, d) <= Gain(p, e)
  {
  }

  lemma GainAdds(p: Params, d: int, e: int)
    ensures Gain(p, d + e) == Gain(p, d) + Gain(p, e)
  {
  }

  lemma RefillStaysWithin(p: Params, b: Bucket, now: int)
    requires p.Valid() && b.Within(p)
    ensures Refill(p, b, now).Within(p)
  {
  }

  lemma TakenStaysWithin(p: Params, b: Bucket, now: int, n: int)
    requires p.Valid() && b.Within(p)
    ensures Taken(p, b, now, n).Within(p)
  {
  }

  /** Refilling at an earlier instant on the way is unobservable: the clamp and the rate
      compose, so the two routes end in the very same bucket. */
  lemma RefillComposes(p: Params, b: Bucket, t1: int, t2: int)
    requires p.Valid() && b.Within(p) && t1 <= t2
    ensures Refill(p, Refill(p, b, t1), t2) == Refill(p, b, t2)
  {
  }

  /** What a later observer sees depends on the earlier level only. */
  lemma LevelFromLevel(p: Params, b: Bucket, t1: int, t2: int)
    requires p.Valid() && b.Within(p) && b.last <= t1 <= t2
    ensures Level(p, b, t2) == Clamp(p, Level(p, b, t1) + Gain(p, t2 - t1))
  {
  }

  /** A request for n > 0 tokens succeeds exactly when the observer, at that instant, is
      shown at least n. */
  lemma GrantsIffTokens(p: Params, b: Bucket, now: int, n: int)
    requires n > 0
    ensures Grants(p, b, now, n) <==> n <= Tokens(p, b, now)
  {
  }
}
