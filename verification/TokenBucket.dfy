/** The bucket object: fields updated in place, one atomic step per method. The instant a
    method reads from the clock is its argument `now`, in nanoseconds. */
module TokenBuckets {
  import opened TokenBucketModel

  const NANOS_PER_SECOND: real := 1_000_000_000.0

  /** A refill rate in tokens per second, seen by a clock that ticks in nanoseconds. */
  function NanoParams(capacity: int, refillRate: real): Params {
    Params(capacity, refillRate / NANOS_PER_SECOND)
  }

  /** The refill in the source's units: the rate is per second, the clock in nanoseconds. */
  lemma GainPerSecond(capacity: int, refillRate: real, nanos: int)
    ensures Gain(NanoParams(capacity, refillRate), nanos) == refillRate * (nanos as real / 1_000_000_000.0)
  {
  }

  /** A bucket drained at some instant grants n tokens that many nanoseconds later exactly if
      it can hold n and the rate makes n in that time. */
  lemma DrainedGrantsIff(capacity: int, refillRate: real, drained: int, nanos: nat, n: int)
    requires capacity >= 1 && refillRate > 0.0 && n > 0
    ensures Grants(NanoParams(capacity, refillRate), Bucket(0.0, drained), drained + nanos, n)
       <==> n <= capacity && n as real <= refillRate * (nanos as real / 1_000_000_000.0)
  {
    GainPerSecond(capacity, refillRate, nanos);
  }

  class TokenBucket {
    const capacity: int
    const refillRate: real
    var tokens: real
    var lastRefill: int
    ghost const born: int
    ghost var admitted: int  // tokens handed out so far

    ghost predicate Valid()
      reads this
    {
      capacity >= 1 && refillRate > 0.0 && State().Within(P())
    }

    ghost function P(): Params {
      NanoParams(capacity, refillRate)
    }

    ghost function State(): Bucket
      reads this
    {
      Bucket(tokens, lastRefill)
    }

    constructor (capacity: int, refillRate: real, now: int)
      requires capacity >= 1 && refillRate > 0.0
      ensures Valid() && P() == NanoParams(capacity, refillRate)
      ensures State() == Full(P(), now) && born == now && admitted == 0
    {
      this.capacity := capacity;
      this.refillRate := refillRate;
      this.tokens := capacity as real;
      this.lastRefill := now;
      this.born := now;
      this.admitted := 0;
    }

    method Allow(now: int) returns (ok: bool)
      requires Valid()
      modifies this
      ensures Valid()
      ensures ok == Grants(P(), old(State()), now, 1) && State() == Taken(P(), old(State()), now, 1)
      ensures admitted == old(admitted) + (if ok then 1 else 0)
    {
      ok := AllowN(1, now);
    }

    method AllowN(n: int, now: int) returns (ok: bool)
      requires Valid()
      modifies this
      ensures Valid()
      ensures ok == Grants(P(), old(State()), now, n) && State() == Taken(P(), old(State()), now, n)
      ensures admitted == old(admitted) + (if ok && n > 0 then n else 0)
      // in the source's units
      ensures n > 0 ==>
        var seconds := if now > old(lastRefill) then (now - old(lastRefill)) as real / 1_000_000_000.0 else 0.0;
        ok <==> n <= capacity && n as real <= old(tokens) + refillRate * seconds
    {
      if n <= 0 {
        return true;
      }
      DoRefill(now);
      if tokens >= n as real {
        tokens := tokens - n as real;
        admitted := admitted + n;
        return true;
      }
      return false;
    }

    method ShowTokens(now: int) returns (count: int)
      requires Valid()
      modifies this
      ensures Valid() && admitted == old(admitted)
      ensures State() == Refill(P(), old(State()), now)
      ensures count == Tokens(P(), old(State()), now)
    {
      DoRefill(now);
      count := tokens.Floor;
    }

    /** A reset bucket is indistinguishable from one created at that instant. */
    method Reset(now: int)
      requires Valid()
      modifies this
      ensures Valid() && admitted == old(admitted)
      ensures State() == Full(P(), now)
    {
      tokens := capacity as real;
      lastRefill := now;
    }

    method DoRefill(now: int)
      requires Valid()
      modifies this
      ensures Valid() && admitted == old(admitted)
      ensures State() == Refill(P(), old(State()), now)
      ensures now <= old(lastRefill) ==> tokens == old(tokens) && lastRefill == old(lastRefill)
      ensures now > old(lastRefill) ==>
        var raw := old(tokens) + refillRate * ((now - old(lastRefill)) as real / 1_000_000_000.0);
        lastRefill == now && tokens == if raw > capacity as real then capacity as real else raw
    {
      RefillStaysWithin(P(), State(), now);
      var elapsed := now - lastRefill;
      if elapsed <= 0 {
        return;
      }
      var added := refillRate * (elapsed as real / NANOS_PER_SECOND);
      GainPerSecond(capacity, refillRate, elapsed);
      tokens := tokens + added;
      if tokens > capacity as real {
        tokens := capacity as real;
      }
      lastRefill := now;
    }
  }
}
