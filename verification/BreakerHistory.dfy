/** What the breaker's answers mean in terms of the calls it has received, in any order and
    from any number of callers. */
module BreakerHistory {
  import opened CircuitBreakers
  import opened Counting
  import opened LimiterOps

  datatype Call = Ask(at: int) | Record(success: bool, at: int)

  function Step(s: Settings, b: Breaker, c: Call): Breaker {
    match c
    case Ask(at) => Asked(s, b, at)
    case Record(success, at) => Recorded(s, b, success, at)
  }

  /** The breaker after the calls, oldest first. */
  function Ran(s: Settings, b: Breaker, calls: seq<Call>): Breaker {
    if calls == [] then b else Step(s, Ran(s, b, calls[..|calls| - 1]), calls[|calls| - 1])
  }

  // ----- the history, without reference to the breaker's state -----

  /** Length of the run of failures that ends the record so far. */
  function TrailingFailures(calls: seq<Call>): nat {
    if calls == [] then 0
    else
      var before, c := TrailingFailures(calls[..|calls| - 1]), calls[|calls| - 1];
      if c.Ask? then before else if c.success then 0 else before + 1
  }

  function LastRecordTime(calls: seq<Call>): Option<int> {
    if calls == [] then None
    else
      var c := calls[|calls| - 1];
      if c.Record? then Some(c.at) else LastRecordTime(calls[..|calls| - 1])
  }

  /** A breaker never waits for fewer than one failure. */
  function Trip(s: Settings): int {
    if s.threshold < 1 then 1 else s.threshold
  }

  /** The policy stated on the history alone: let requests through until the trailing run of
      failures reaches the threshold; from then on let one through per record, once the
      cooldown has passed since that record. */
  predicate Policy(s: Settings, calls: seq<Call>, now: int)
    decreases |calls|, 1
  {
    || TrailingFailures(calls) < Trip(s)
    || (!AdmittedSinceRecord(s, calls) && LastRecordTime(calls).Some?
        && now - LastRecordTime(calls).value > s.cooldown)
  }

  /** The policy has let a request through since the last record. */
  predicate AdmittedSinceRecord(s: Settings, calls: seq<Call>)
    decreases |calls|, 0
  {
    calls != [] && calls[|calls| - 1].Ask? &&
    (Policy(s, calls[..|calls| - 1], calls[|calls| - 1].at) || AdmittedSinceRecord(s, calls[..|calls| - 1]))
  }

  lemma {:induction false} StateMirrorsHistory(s: Settings, calls: seq<Call>)
    ensures var b := Ran(s, Fresh, calls);
      && b.failures == TrailingFailures(calls)
      && (b.state.Closed? <==> TrailingFailures(calls) < Trip(s))
      && (!b.state.Closed? ==> LastRecordTime(calls).Some?)
      && (b.state.Open? ==> b.changed == LastRecordTime(calls).value && !AdmittedSinceRecord(s, calls))
      && (b.state.HalfOpen? ==> AdmittedSinceRecord(s, calls))
  {
    if calls != [] {
      StateMirrorsHistory(s, calls[..|calls| - 1]);
    }
  }

  /** The breaker refines its history: under any interleaving of calls, for any threshold
      and any clock, it answers exactly as the policy does. */
  lemma BreakerRefinesPolicy(s: Settings, calls: seq<Call>, now: int)
    ensures Permits(s, Ran(s, Fresh, calls), now) <==> Policy(s, calls, now)
  {
    StateMirrorsHistory(s, calls);
  }

  // ----- probes: requests let through from the open state -----

  predicate IsProbe(s: Settings, b: Breaker, calls: seq<Call>, i: nat)
    requires i < |calls|
  {
    calls[i].Ask? && Ran(s, b, calls[..i]).state.Open? && Permits(s, Ran(s, b, calls[..i]), calls[i].at)
  }

  predicate Ordered(start: int, calls: seq<Call>) {
    && (forall i :: 0 <= i < |calls| ==> start <= calls[i].at)
    && (forall i, j :: 0 <= i < j < |calls| ==> calls[i].at <= calls[j].at)
  }

  /** Whenever the breaker is open after a probe, it opened no earlier than the probe. */
  lemma {:induction false} OpenedAfterProbe(s: Settings, b: Breaker, calls: seq<Call>, i: nat, k: nat)
    requires i < k <= |calls| && IsProbe(s, b, calls, i)
    requires Ordered(calls[0].at, calls)
    ensures Ran(s, b, calls[..k]).state.Open? ==> Ran(s, b, calls[..k]).changed >= calls[i].at
  {
    assert calls[..k][..k - 1] == calls[..k - 1];
    if k > i + 1 {
      OpenedAfterProbe(s, b, calls, i, k - 1);
    }
  }

  /** With a clock that does not step back, any two probes are more than a cooldown apart,
      whatever was recorded between them. */
  lemma ProbesAreSpaced(s: Settings, b: Breaker, calls: seq<Call>, i: nat, j: nat)
    requires i < j < |calls| && IsProbe(s, b, calls, i) && IsProbe(s, b, calls, j)
    requires Ordered(calls[0].at, calls)
    ensures calls[j].at - calls[i].at > s.cooldown
  {
    OpenedAfterProbe(s, b, calls, i, j);
  }

  function Probes(s: Settings, b: Breaker, calls: seq<Call>): nat {
    if calls == [] then 0
    else
      Probes(s, b, calls[..|calls| - 1]) + (if IsProbe(s, b, calls, |calls| - 1) then 1 else 0)
  }

  function Admissions(s: Settings, b: Breaker, calls: seq<Call>): nat {
    if calls == [] then 0
    else
      var c := calls[|calls| - 1];
      Admissions(s, b, calls[..|calls| - 1])
      + (if c.Ask? && Permits(s, Ran(s, b, calls[..|calls| - 1]), c.at) then 1 else 0)
  }

  function LastProbe(s: Settings, b: Breaker, calls: seq<Call>): Option<int> {
    if calls == [] then None
    else if IsProbe(s, b, calls, |calls| - 1) then Some(calls[|calls| - 1].at)
    else LastProbe(s, b, calls[..|calls| - 1])
  }

  /** The least time at which the n-th probe can be, when the first is no earlier than start. */
  function Earliest(s: Settings, start: int, n: nat): int {
    if n <= 1 then start else Earliest(s, start, n - 1) + s.cooldown + 1
  }

  lemma {:induction false} EarliestIsLinear(s: Settings, start: int, n: nat)
    requires n > 0
    ensures Earliest(s, start, n) == start + (n - 1) * (s.cooldown + 1)
  {
    if n > 1 {
      EarliestIsLinear(s, start, n - 1);
      assert (n - 1) * (s.cooldown + 1) == (n - 2) * (s.cooldown + 1) + (s.cooldown + 1);
    }
  }

  lemma {:induction false} ProbesTakeTime(s: Settings, b: Breaker, calls: seq<Call>, start: int)
    requires Ordered(start, calls)
    ensures var last, after := LastProbe(s, b, calls), Ran(s, b, calls);
      && (Probes(s, b, calls) > 0 <==> last.Some?)
      && (last.Some? ==> Earliest(s, start, Probes(s, b, calls)) <= last.value <= calls[|calls| - 1].at)
      && (last.Some? && after.state.Open? ==> last.value <= after.changed)
    ensures calls == [] ==> Probes(s, b, calls) == 0
  {
    if calls != [] {
      ProbesTakeTime(s, b, calls[..|calls| - 1], start);
    }
  }

  /** In a span of T ticks the breaker lets through at most 1 + T / (cooldown + 1) probes. */
  lemma ProbesAreFew(s: Settings, b: Breaker, calls: seq<Call>, start: int, span: nat)
    requires Ordered(start, calls) && s.cooldown >= 0
    requires forall i :: 0 <= i < |calls| ==> calls[i].at <= start + span
    ensures Probes(s, b, calls) <= 1 + span / (s.cooldown + 1)
  {
    ProbesTakeTime(s, b, calls, start);
    var n := Probes(s, b, calls);
    if n > 0 {
      EarliestIsLinear(s, start, n);
      DivideBound(n - 1, s.cooldown + 1, span);
    }
  }

  predicate NoSuccess(calls: seq<Call>) {
    forall i :: 0 <= i < |calls| ==> !(calls[i].Record? && calls[i].success)
  }

  lemma {:induction false} OutageAdmitsProbesOnly(s: Settings, b: Breaker, calls: seq<Call>)
    requires !b.state.Closed? && NoSuccess(calls)
    ensures !Ran(s, b, calls).state.Closed?
    ensures Admissions(s, b, calls) == Probes(s, b, calls)
  {
    if calls != [] {
      OutageAdmitsProbesOnly(s, b, calls[..|calls| - 1]);
    }
  }

  /** Once tripped, and until a success is recorded, everything the breaker lets through is
      a probe, and there are few of them. */
  lemma OutageAdmissionsAreFew(s: Settings, b: Breaker, calls: seq<Call>, start: int, span: nat)
    requires !b.state.Closed? && NoSuccess(calls)
    requires Ordered(start, calls) && s.cooldown >= 0
    requires forall i :: 0 <= i < |calls| ==> calls[i].at <= start + span
    ensures Admissions(s, b, calls) <= 1 + span / (s.cooldown + 1)
  {
    OutageAdmitsProbesOnly(s, b, calls);
    ProbesAreFew(s, b, calls, start, span);
  }
}
