/** Greedy admission is optimal for requests of one size. */
module GreedyOptimality {
  import opened TokenBucketModel
  import opened BucketConformance

  /** The bucket of a rival policy: same refill and clamp, but it pays only for the
      requests it chooses. */
  function Rival(p: Params, b: Bucket, rs: seq<Request>, chosen: seq<bool>, k: nat): Bucket
    requires k <= |rs| == |chosen|
  {
    if k == 0 then b
    else
      var r := Refill(p, Rival(p, b, rs, chosen, k - 1), rs[k - 1].at);
      if chosen[k - 1] then r.(level := r.level - rs[k - 1].n as real) else r
  }

  /** A rival may choose a request only when its own bucket can pay for it. */
  predicate Legal(p: Params, b: Bucket, rs: seq<Request>, chosen: seq<bool>)
    requires |rs| == |chosen|
  {
    forall k :: 0 <= k < |rs| && chosen[k] ==>
      Level(p, Rival(p, b, rs, chosen, k), rs[k].at) >= rs[k].n as real
  }

  function ChosenCount(chosen: seq<bool>, k: nat): nat
    requires k <= |chosen|
  {
    if k == 0 then 0 else ChosenCount(chosen, k - 1) + (if chosen[k - 1] then 1 else 0)
  }

  function AdmittedCount(p: Params, b: Bucket, rs: seq<Request>, k: nat): nat
    requires k <= |rs|
  {
    if k == 0 then 0
    else AdmittedCount(p, b, rs, k - 1) + (if Admitted(p, b, rs, k - 1) then 1 else 0)
  }

  /** If the bucket trails the rival's by at most `lead`, one refill keeps it so. */
  lemma RefillKeepsLead(p: Params, mine: Bucket, yours: Bucket, now: int, lead: real)
    requires p.Valid() && mine.last == yours.last && 0.0 <= mine.level && 0.0 <= lead
    requires yours.level <= p.capacity as real && yours.level <= mine.level + lead
    ensures Refill(p, mine, now).last == Refill(p, yours, now).last
    ensures 0.0 <= Level(p, mine, now) && Level(p, yours, now) <= p.capacity as real
    ensures Level(p, yours, now) <= Level(p, mine, now) + lead
  {
  }

  function Lead(p: Params, b: Bucket, rs: seq<Request>, chosen: seq<bool>, k: nat): int
    requires k <= |rs| == |chosen|
  {
    AdmittedCount(p, b, rs, k) - ChosenCount(chosen, k)
  }

  /** One request: if the rival takes it and the bucket does not, the bucket is ahead by
      at least one request, and it loses no more than that one. */
  lemma StepKeepsLead(p: Params, mine: Bucket, yours: Bucket, now: int, n: int, lead: int, takes: bool) returns (lead': int)
    requires p.Valid() && n > 0 && 0 <= lead
    requires mine.last == yours.last && 0.0 <= mine.level && yours.level <= p.capacity as real
    requires yours.level <= mine.level + (n * lead) as real
    requires takes ==> Level(p, yours, now) >= n as real
    ensures lead' == lead + (if Grants(p, mine, now, n) then 1 else 0) - (if takes then 1 else 0) && 0 <= lead'
    ensures var r := Refill(p, yours, now);
      var mine', yours' := Taken(p, mine, now, n), if takes then r.(level := r.level - n as real) else r;
      && mine'.last == yours'.last && 0.0 <= mine'.level && yours'.level <= p.capacity as real
      && yours'.level <= mine'.level + (n * lead') as real
  {
    assert 0 <= n * lead;
    RefillKeepsLead(p, mine, yours, now, (n * lead) as real);
    lead' := lead + (if Grants(p, mine, now, n) then 1 else 0) - (if takes then 1 else 0);
    if takes && !Grants(p, mine, now, n) {
      assert 0 < n * lead;
      assert n * lead' == n * lead - n;
    } else if !takes && Grants(p, mine, now, n) {
      assert n * lead' == n * lead + n;
    }
  }

  /** The bucket never falls further behind a rival's than the requests it is ahead. */
  lemma {:induction false} LeadCoversDeficit(p: Params, b: Bucket, rs: seq<Request>, chosen: seq<bool>, n: int, k: nat)
    requires p.Valid() && b.Within(p) && n > 0
    requires k <= |rs| == |chosen| && Legal(p, b, rs, chosen)
    requires forall i :: 0 <= i < |rs| ==> rs[i].n == n
    ensures 0 <= Lead(p, b, rs, chosen, k)
    ensures var mine, yours := After(p, b, rs, k), Rival(p, b, rs, chosen, k);
      && mine.last == yours.last && 0.0 <= mine.level && yours.level <= p.capacity as real
      && yours.level <= mine.level + (n * Lead(p, b, rs, chosen, k)) as real
  {
    if k > 0 {
      LeadCoversDeficit(p, b, rs, chosen, n, k - 1);
      var mine, yours := After(p, b, rs, k - 1), Rival(p, b, rs, chosen, k - 1);
      assert rs[k - 1].n == n;
      var lead' := StepKeepsLead(p, mine, yours, rs[k - 1].at, n, Lead(p, b, rs, chosen, k - 1), chosen[k - 1]);
      assert lead' == Lead(p, b, rs, chosen, k);
    }
  }

  /** No policy that obeys the same bucket has admitted more requests at any prefix. */
  lemma GreedyIsOptimal(p: Params, b: Bucket, rs: seq<Request>, chosen: seq<bool>, n: int, k: nat)
    requires p.Valid() && b.Within(p) && n > 0
    requires k <= |rs| == |chosen| && Legal(p, b, rs, chosen)
    requires forall i :: 0 <= i < |rs| ==> rs[i].n == n
    ensures ChosenCount(chosen, k) <= AdmittedCount(p, b, rs, k)
  {
    LeadCoversDeficit(p, b, rs, chosen, n, k);
  }

  /** A request for `size` tokens and then as many for one as the bucket holds, all at once. */
  function LargeFirst(p: Params, size: int, at: int): seq<Request>
    requires p.Valid()
  {
    [Request(at, size)] + seq(p.capacity, _ => Request(at, 1))
  }

  function RefuseFirst(p: Params): seq<bool>
    requires p.Valid()
  {
    [false] + seq(p.capacity, _ => true)
  }

  /** After the large request and k small ones: the rival has paid for the small ones, the
      bucket for the large one and for as many small ones as were left. */
  lemma {:induction false} LargeFirstStepwise(p: Params, size: int, at: int, k: nat)
    requires p.Valid() && 1 <= size <= p.capacity && k <= p.capacity
    ensures var b, rs, chosen, left := Full(p, at), LargeFirst(p, size, at), RefuseFirst(p), p.capacity - size;
      && Rival(p, b, rs, chosen, k + 1) == Bucket((p.capacity - k) as real, at)
      && ChosenCount(chosen, k + 1) == k
      && After(p, b, rs, k + 1) == Bucket((if k <= left then left - k else 0) as real, at)
      && AdmittedCount(p, b, rs, k + 1) == 1 + if k <= left then k else left
  {
    var b, rs, chosen := Full(p, at), LargeFirst(p, size, at), RefuseFirst(p);
    if k == 0 {
      assert After(p, b, rs, 0) == b && Rival(p, b, rs, chosen, 0) == b;
      assert ChosenCount(chosen, 0) == 0 && AdmittedCount(p, b, rs, 0) == 0;
    } else {
      LargeFirstStepwise(p, size, at, k - 1);
      assert rs[k] == Request(at, 1) && chosen[k];
    }
  }

  /** One size is essential: refusing a request for `size` tokens that the full bucket could
      serve admits `capacity` requests for one where greed admits 1 + capacity - size, so
      greed loses to this rival exactly if the first request was for more than one token. */
  lemma GreedyIsNotOptimalForMixedSizes(p: Params, size: int, at: int)
    requires p.Valid() && 1 <= size <= p.capacity
    ensures var b, rs, chosen := Full(p, at), LargeFirst(p, size, at), RefuseFirst(p);
      && |rs| == |chosen| && Legal(p, b, rs, chosen)
      && ChosenCount(chosen, |rs|) == p.capacity
      && AdmittedCount(p, b, rs, |rs|) == 1 + p.capacity - size
      && (AdmittedCount(p, b, rs, |rs|) < ChosenCount(chosen, |rs|) <==> size > 1)
  {
    var b, rs, chosen := Full(p, at), LargeFirst(p, size, at), RefuseFirst(p);
    LargeFirstStepwise(p, size, at, p.capacity);
    forall k | 0 <= k < |rs| && chosen[k] ensures Level(p, Rival(p, b, rs, chosen, k), rs[k].at) >= rs[k].n as real {
      LargeFirstStepwise(p, size, at, k - 1);
    }
  }
}

/** Bookkeeping over runs that mix requests with observations. */
module BucketLedger {
  import opened TokenBucketModel

  datatype Op = Ask(at: int, n: int) | Look(at: int)

  function Step(p: Params, b: Bucket, op: Op): Bucket {
    match op
    case Ask(at, n) => Taken(p, b, at, n)
    case Look(at) => Refill(p, b, at)
  }

  function Ran(p: Params, b: Bucket, ops: seq<Op>): Bucket
    decreases |ops|
  {
    if ops == [] then b else Ran(p, Step(p, b, ops[0]), ops[1..])
  }

  function Paid(p: Params, b: Bucket, op: Op): int {
    if op.Ask? && op.n > 0 && Grants(p, b, op.at, op.n) then op.n else 0
  }

  function TotalPaid(p: Params, b: Bucket, ops: seq<Op>): int
    decreases |ops|
  {
    if ops == [] then 0 else Paid(p, b, ops[0]) + TotalPaid(p, Step(p, b, ops[0]), ops[1..])
  }

  /** Tokens that a refill at `now` loses to the clamp. */
  function Overflow(p: Params, b: Bucket, now: int): real {
    if now <= b.last then 0.0
    else
      var raw := b.level + Gain(p, now - b.last);
      if raw > p.capacity as real then raw - p.capacity as real else 0.0
  }

  function Spilled(p: Params, b: Bucket, op: Op): real {
    if op.Ask? && op.n <= 0 then 0.0 else Overflow(p, b, op.at)
  }

  function TotalSpilled(p: Params, b: Bucket, ops: seq<Op>): real
    decreases |ops|
  {
    if ops == [] then 0.0 else Spilled(p, b, ops[0]) + TotalSpilled(p, Step(p, b, ops[0]), ops[1..])
  }

  lemma StepConserves(p: Params, b: Bucket, op: Op)
    requires p.Valid() && b.Within(p)
    ensures Step(p, b, op).Within(p) && b.last <= Step(p, b, op).last
    ensures Step(p, b, op).level + Paid(p, b, op) as real + Spilled(p, b, op)
         == b.level + Gain(p, Step(p, b, op).last - b.last)
  {
  }

  /** Conservation for any clock readings, even backward ones: every token that accrued is
      in the bucket, was handed out, or was lost to the clamp. */
  lemma {:induction false} TokensAreConserved(p: Params, b: Bucket, ops: seq<Op>)
    requires p.Valid() && b.Within(p)
    ensures Ran(p, b, ops).Within(p) && b.last <= Ran(p, b, ops).last
    ensures Ran(p, b, ops).level + TotalPaid(p, b, ops) as real + TotalSpilled(p, b, ops)
         == b.level + Gain(p, Ran(p, b, ops).last - b.last)
    ensures TotalSpilled(p, b, ops) >= 0.0
    decreases |ops|
  {
    if ops == [] {
      assert Gain(p, 0) == 0.0;
    } else {
      var b' := Step(p, b, ops[0]);
      StepConserves(p, b, ops[0]);
      TokensAreConserved(p, b', ops[1..]);
      var last := Ran(p, b, ops).last;
      GainAdds(p, b'.last - b.last, last - b'.last);
      assert b'.last - b.last + (last - b'.last) == last - b.last;
    }
  }

  // ----- observation -----

  predicate Ascending(start: int, ops: seq<Op>)
    decreases |ops|
  {
    ops != [] ==> start <= ops[0].at && Ascending(ops[0].at, ops[1..])
  }

  /** The answers given to the requests of a run, in order. */
  function Answers(p: Params, b: Bucket, ops: seq<Op>): seq<bool>
    decreases |ops|
  {
    if ops == [] then []
    else
      (if ops[0].Ask? then [Grants(p, b, ops[0].at, ops[0].n)] else [])
      + Answers(p, Step(p, b, ops[0]), ops[1..])
  }

  function Asks(ops: seq<Op>): seq<Op> {
    if ops == [] then []
    else (if ops[0].Ask? then [ops[0]] else []) + Asks(ops[1..])
  }

  /** Buckets that one refill makes equal answer alike, watched or not. */
  lemma {:induction false} ObservedAnswersAlike(p: Params, a: Bucket, b: Bucket, t: int, ops: seq<Op>)
    requires p.Valid() && a.Within(p) && b.Within(p)
    requires Refill(p, a, t) == Refill(p, b, t) && Ascending(t, ops)
    ensures Answers(p, a, ops) == Answers(p, b, Asks(ops))
    decreases |ops|
  {
    if ops != [] {
      var op := ops[0];
      RefillComposes(p, a, t, op.at);
      RefillComposes(p, b, t, op.at);
      assert Refill(p, a, op.at) == Refill(p, b, op.at);
      StepConserves(p, a, op);
      if op.Look? {
        RefillComposes(p, a, op.at, op.at);
        ObservedAnswersAlike(p, Step(p, a, op), b, op.at, ops[1..]);
        assert Asks(ops) == Asks(ops[1..]);
      } else {
        StepConserves(p, b, op);
        ObservedAnswersAlike(p, Step(p, a, op), Step(p, b, op), op.at, ops[1..]);
        assert Asks(ops)[1..] == Asks(ops[1..]);
      }
    }
  }

  /** Observation is free: the answers of a run with a nondecreasing clock are those of the
      run with every observation struck out. */
  lemma ObservationIsFree(p: Params, b: Bucket, start: int, ops: seq<Op>)
    requires p.Valid() && b.Within(p) && Ascending(start, ops)
    ensures Answers(p, b, ops) == Answers(p, b, Asks(ops))
  {
    ObservedAnswersAlike(p, b, b, start, ops);
  }
}
