/** What the bucket promises over whole runs: it decides exactly the all-windows rule. */
module BucketConformance {
  import opened TokenBucketModel

  datatype Request = Request(at: int, n: int)

  predicate Monotone(start: int, rs: seq<Request>) {
    && (forall i :: 0 <= i < |rs| ==> start <= rs[i].at)
    && (forall i, j :: 0 <= i < j < |rs| ==> rs[i].at <= rs[j].at)
  }

  /** The bucket after the first k requests of a run that starts with b. */
  function After(p: Params, b: Bucket, rs: seq<Request>, k: nat): Bucket
    requires k <= |rs|
  {
    if k == 0 then b else Taken(p, After(p, b, rs, k - 1), rs[k - 1].at, rs[k - 1].n)
  }

  predicate Admitted(p: Params, b: Bucket, rs: seq<Request>, k: nat)
    requires k < |rs|
  {
    Grants(p, After(p, b, rs, k), rs[k].at, rs[k].n)
  }

  function Cost(p: Params, b: Bucket, rs: seq<Request>, k: nat): int
    requires k < |rs|
  {
    if rs[k].n > 0 && Admitted(p, b, rs, k) then rs[k].n else 0
  }

  /** Tokens handed out by the requests j .. k-1. */
  function Spent(p: Params, b: Bucket, rs: seq<Request>, j: nat, k: nat): int
    requires k <= |rs|
  {
    if k <= j then 0 else Spent(p, b, rs, j, k - 1) + Cost(p, b, rs, k - 1)
  }

  /** What the window that opens at request j and closes at `now`, after k requests, may
      still hand out: burst plus rate times length, less what it has handed out. */
  function Slack(p: Params, b: Bucket, rs: seq<Request>, j: nat, k: nat, now: int): real
    requires j < k <= |rs|
  {
    p.capacity as real + Gain(p, now - rs[j].at) - Spent(p, b, rs, j, k) as real
  }

  lemma {:induction false} AfterStaysWithin(p: Params, b: Bucket, rs: seq<Request>, k: nat, now: int)
    requires p.Valid() && b.Within(p) && k <= |rs|
    requires b.last <= now && forall i :: 0 <= i < k ==> rs[i].at <= now
    ensures After(p, b, rs, k).Within(p) && After(p, b, rs, k).last <= now
  {
    if k > 0 {
      AfterStaysWithin(p, b, rs, k - 1, now);
      TakenStaysWithin(p, After(p, b, rs, k - 1), rs[k - 1].at, rs[k - 1].n);
    }
  }

  /** One step: the level seen at `now` is the level before the step less its cost, plus
      the refill since, clamped. */
  lemma LevelAfterStep(p: Params, b: Bucket, rs: seq<Request>, k: nat, now: int)
    requires p.Valid() && b.Within(p) && 0 < k <= |rs|
    requires Monotone(b.last, rs) && rs[k - 1].at <= now
    ensures Level(p, After(p, b, rs, k), now)
         == Clamp(p, Level(p, After(p, b, rs, k - 1), rs[k - 1].at)
                     - Cost(p, b, rs, k - 1) as real + Gain(p, now - rs[k - 1].at))
  {
    var before, at := After(p, b, rs, k - 1), rs[k - 1].at;
    AfterStaysWithin(p, b, rs, k - 1, at);
    RefillStaysWithin(p, before, at);
    TakenStaysWithin(p, before, at, rs[k - 1].n);
    if rs[k - 1].n <= 0 {
      LevelFromLevel(p, before, at, now);
    } else {
      LevelFromLevel(p, After(p, b, rs, k), at, now);
    }
  }

  /** One step costs every open window the same, and opens the window of its own. */
  lemma SlackAfterStep(p: Params, b: Bucket, rs: seq<Request>, j: nat, k: nat, now: int)
    requires j < k <= |rs|
    ensures Slack(p, b, rs, j, k, now)
         == (if j < k - 1 then Slack(p, b, rs, j, k - 1, rs[k - 1].at) else p.capacity as real)
            - Cost(p, b, rs, k - 1) as real + Gain(p, now - rs[k - 1].at)
  {
    var at := rs[k - 1].at;
    GainAdds(p, at - rs[j].at, now - at);
    assert at - rs[j].at + (now - at) == now - rs[j].at;
    assert Spent(p, b, rs, k - 1, k - 1) == 0;
  }

  /** The stored level, refilled to `now`, is the tightest of all window slacks: no window
      has less left, and some window (or the empty one, which leaves the whole burst) has
      exactly that much left. */
  lemma {:induction false} LevelIsTightestWindow(p: Params, b: Bucket, rs: seq<Request>, k: nat, now: int)
    requires p.Valid() && b == Full(p, b.last) && k <= |rs|
    requires Monotone(b.last, rs) && b.last <= now && forall i :: 0 <= i < k ==> rs[i].at <= now
    ensures var level := Level(p, After(p, b, rs, k), now);
      && level <= p.capacity as real
      && (forall j :: 0 <= j < k ==> level <= Slack(p, b, rs, j, k, now))
      && (level == p.capacity as real || exists j :: 0 <= j < k && level == Slack(p, b, rs, j, k, now))
  {
    if k > 0 {
      var at := rs[k - 1].at;
      LevelIsTightestWindow(p, b, rs, k - 1, at);
      LevelAfterStep(p, b, rs, k, now);
      var before, level := Level(p, After(p, b, rs, k - 1), at), Level(p, After(p, b, rs, k), now);
      forall j | 0 <= j < k ensures level <= Slack(p, b, rs, j, k, now) {
        SlackAfterStep(p, b, rs, j, k, now);
      }
      if level != p.capacity as real {
        if before == p.capacity as real {
          SlackAfterStep(p, b, rs, k - 1, k, now);
          assert level == Slack(p, b, rs, k - 1, k, now);
        } else {
          var j :| 0 <= j < k - 1 && before == Slack(p, b, rs, j, k - 1, at);
          SlackAfterStep(p, b, rs, j, k, now);
          assert level == Slack(p, b, rs, j, k, now);
        }
      }
    }
  }

  /** Request k still fits into the window that opens with request j. */
  predicate Fits(p: Params, b: Bucket, rs: seq<Request>, j: nat, k: nat)
    requires j <= k < |rs|
  {
    (Spent(p, b, rs, j, k) + rs[k].n) as real <= p.capacity as real + Gain(p, rs[k].at - rs[j].at)
  }

  lemma FitsIffSlack(p: Params, b: Bucket, rs: seq<Request>, j: nat, k: nat)
    requires j < k < |rs|
    ensures Fits(p, b, rs, j, k) <==> rs[k].n as real <= Slack(p, b, rs, j, k, rs[k].at)
  {
  }

  lemma FitsEmptyWindow(p: Params, b: Bucket, rs: seq<Request>, k: nat)
    requires k < |rs|
    ensures Fits(p, b, rs, k, k) <==> rs[k].n as real <= p.capacity as real
  {
  }

  /** Exact conformance: a fresh bucket admits request k exactly when no window that ends
      with it would hand out more than burst + rate * length. */
  lemma AdmitsIffEveryWindowFits(p: Params, b: Bucket, rs: seq<Request>, k: nat)
    requires p.Valid() && b == Full(p, b.last) && k < |rs| && rs[k].n > 0
    requires Monotone(b.last, rs)
    ensures Admitted(p, b, rs, k) <==> forall j :: 0 <= j <= k ==> Fits(p, b, rs, j, k)
  {
    LevelIsTightestWindow(p, b, rs, k, rs[k].at);
    var level := Level(p, After(p, b, rs, k), rs[k].at);
    FitsEmptyWindow(p, b, rs, k);
    if level >= rs[k].n as real {
      forall j | 0 <= j <= k ensures Fits(p, b, rs, j, k) {
        if j < k {
          FitsIffSlack(p, b, rs, j, k);
        }
      }
    } else if level != p.capacity as real {
      var j :| 0 <= j < k && level == Slack(p, b, rs, j, k, rs[k].at);
      FitsIffSlack(p, b, rs, j, k);
    }
  }

  lemma SlackStaysPositive(p: Params, b: Bucket, rs: seq<Request>, j: nat, k: nat)
    requires p.Valid() && b == Full(p, b.last) && j <= k < |rs|
    requires Monotone(b.last, rs)
    ensures Slack(p, b, rs, j, k + 1, rs[k].at) >= 0.0
  {
    var now := rs[k].at;
    LevelIsTightestWindow(p, b, rs, k + 1, now);
    AfterStaysWithin(p, b, rs, k + 1, now);
    RefillStaysWithin(p, After(p, b, rs, k + 1), now);
  }

  /** Safety over whole runs: no window hands out more than its burst and accrual. */
  lemma WindowWithinAllowance(p: Params, b: Bucket, rs: seq<Request>, j: nat, k: nat)
    requires p.Valid() && b == Full(p, b.last) && j <= k < |rs|
    requires Monotone(b.last, rs)
    ensures Spent(p, b, rs, j, k + 1) as real <= p.capacity as real + Gain(p, rs[k].at - rs[j].at)
  {
    assert 0.0 <= Slack(p, b, rs, j, k + 1, rs[k].at) by {
      SlackStaysPositive(p, b, rs, j, k);
    }
  }
}

/** The same in the source's units. */
module BucketAllowance {
  import opened TokenBucketModel
  import opened TokenBuckets
  import opened BucketConformance

  /** No window of any run hands out more than the capacity and what the rate, in tokens per
      second, makes in the window's length, in nanoseconds. */
  lemma NoWindowOverspends(p: Params, capacity: int, refillRate: real, b: Bucket, rs: seq<Request>, j: nat, k: nat)
    requires p == NanoParams(capacity, refillRate) && p.Valid() && b == Full(p, b.last)
    requires j <= k < |rs| && Monotone(b.last, rs)
    ensures Spent(p, b, rs, j, k + 1) as real
         <= capacity as real + refillRate * ((rs[k].at - rs[j].at) as real / 1_000_000_000.0)
  {
    GainPerSecond(capacity, refillRate, rs[k].at - rs[j].at);
    WindowWithin(p, b, rs, j, k, refillRate * ((rs[k].at - rs[j].at) as real / 1_000_000_000.0));
  }

  lemma WindowWithin(p: Params, b: Bucket, rs: seq<Request>, j: nat, k: nat, made: real)
    requires p.Valid() && b == Full(p, b.last) && j <= k < |rs| && Monotone(b.last, rs)
    requires made == Gain(p, rs[k].at - rs[j].at)
    ensures Spent(p, b, rs, j, k + 1) as real <= p.capacity as real + made
  {
    WindowWithinAllowance(p, b, rs, j, k);
  }
}
