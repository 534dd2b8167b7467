/** Many round trips sharing one breaker, interleaved at will. A round trip asks once, calls
    upstream up to its limit, and then records one result, unless it is abandoned on one of
    the early returns, which record nothing. */
module BreakerProtocol {
  import opened CircuitBreakers
  import opened BreakerHistory
  import opened LimiterOps

  datatype Status = Flying | Finished | Abandoned

  datatype Trip = Trip(probe: bool, limit: nat, attempts: nat, status: Status)

  /** `trips` holds every round trip the breaker let through, `calls` every call it received,
      and `probe` the trip that put it into the half-open state it is in. */
  datatype World = World(breaker: Breaker, trips: seq<Trip>, probe: Option<nat>, calls: seq<Call>)

  const Start: World := World(Fresh, [], None, [])

  datatype Event =
    | Begin(idempotent: bool, at: int)
    | Attempt(id: nat)
    | Complete(id: nat, success: bool, at: int)
    | Abandon(id: nat)

  predicate Aloft(w: World, id: nat) {
    id < |w.trips| && w.trips[id].status.Flying?
  }

  /** A failure is recorded only when the attempts are used up; only round trips that may
      retry have early returns. */
  predicate Enabled(w: World, e: Event) {
    match e
    case Begin(_, _) => true
    case Attempt(id) => Aloft(w, id) && w.trips[id].attempts < w.trips[id].limit
    case Complete(id, success, _) =>
      Aloft(w, id) && w.trips[id].attempts > 0 && (success || w.trips[id].attempts == w.trips[id].limit)
    case Abandon(id) => Aloft(w, id) && w.trips[id].limit == 3 && w.trips[id].attempts < 3
  }

  /** A round trip the breaker lets through in this state. */
  function NewTrip(b: Breaker, idempotent: bool): Trip {
    Trip(b.state.Open?, if idempotent then 3 else 1, 0, Flying)
  }

  function Apply(s: Settings, w: World, e: Event): World
    requires Enabled(w, e)
  {
    match e
    case Begin(idempotent, at) =>
      var w' := w.(breaker := Asked(s, w.breaker, at), calls := w.calls + [Ask(at)]);
      if Permits(s, w.breaker, at) then
        w'.(trips := w.trips + [NewTrip(w.breaker, idempotent)],
            probe := if w.breaker.state.Open? then Some(|w.trips|) else w.probe)
      else w'
    case Attempt(id) =>
      w.(trips := w.trips[id := w.trips[id].(attempts := w.trips[id].attempts + 1)])
    case Complete(id, success, at) =>
      w.(breaker := Recorded(s, w.breaker, success, at), calls := w.calls + [Record(success, at)],
         trips := w.trips[id := w.trips[id].(status := Finished)], probe := None)
    case Abandon(id) =>
      w.(trips := w.trips[id := w.trips[id].(status := Abandoned)])
  }

  predicate Possible(s: Settings, w: World, es: seq<Event>)
    decreases |es|
  {
    es != [] ==> Enabled(w, es[0]) && Possible(s, Apply(s, w, es[0]), es[1..])
  }

  function Outcome(s: Settings, w: World, es: seq<Event>): World
    requires Possible(s, w, es)
    decreases |es|
  {
    if es == [] then w else Outcome(s, Apply(s, w, es[0]), es[1..])
  }

  function CallOf(e: Event): seq<Call> {
    match e
    case Begin(_, at) => [Ask(at)]
    case Complete(_, success, at) => [Record(success, at)]
    case _ => []
  }

  /** The calls the events make to the breaker, in order. */
  function CallsOf(es: seq<Event>): seq<Call> {
    if es == [] then [] else CallOf(es[0]) + CallsOf(es[1..])
  }

  lemma {:induction false} CallsAreLogged(s: Settings, w: World, es: seq<Event>)
    requires Possible(s, w, es)
    ensures Outcome(s, w, es).calls == w.calls + CallsOf(es)
    decreases |es|
  {
    if es != [] {
      CallsAreLogged(s, Apply(s, w, es[0]), es[1..]);
      assert Apply(s, w, es[0]).calls == w.calls + CallOf(es[0]);
    }
  }

  // ----- what every interleaving keeps -----

  function ProbeTrips(trips: seq<Trip>): nat {
    if trips == [] then 0
    else ProbeTrips(trips[..|trips| - 1]) + (if trips[|trips| - 1].probe then 1 else 0)
  }

  /** Upstream calls made by the round trips that were probes. */
  function ProbeCalls(trips: seq<Trip>): nat {
    if trips == [] then 0
    else
      var t := trips[|trips| - 1];
      ProbeCalls(trips[..|trips| - 1]) + (if t.probe then t.attempts else 0)
  }

  predicate TripsBounded(trips: seq<Trip>) {
    forall i :: 0 <= i < |trips| ==> 1 <= trips[i].limit <= 3 && trips[i].attempts <= trips[i].limit
  }

  /** Since the world `base` the breaker has seen the calls added to the log, and its probes
      are the trips added and marked as such. */
  ghost predicate MatchesHistory(s: Settings, base: World, w: World) {
    && |base.calls| <= |w.calls| && |base.trips| <= |w.trips|
    && Accounted(s, base.breaker, w.breaker, w.calls[|base.calls|..], w.trips[|base.trips|..])
  }

  /** The calls take the breaker from one state to the other, letting those probes through. */
  ghost predicate Accounted(s: Settings, before: Breaker, after: Breaker, calls: seq<Call>, trips: seq<Trip>) {
    after == Ran(s, before, calls) && ProbeTrips(trips) == Probes(s, before, calls)
  }

  /** A half-open breaker has a probe, which has recorded nothing. */
  predicate ProbeUnrecorded(w: World) {
    && (w.breaker.state.HalfOpen? <==> w.probe.Some?)
    && (w.probe.Some? ==>
          && w.probe.value < |w.trips| && w.trips[w.probe.value].probe
          && !w.trips[w.probe.value].status.Finished?)
  }

  ghost predicate Inv(s: Settings, w: World) {
    MatchesHistory(s, Start, w) && TripsBounded(w.trips) && ProbeUnrecorded(w)
  }

  lemma {:induction false} ProbeTripsAfterUpdate(trips: seq<Trip>, id: nat, t: Trip)
    requires id < |trips| && t.probe == trips[id].probe
    ensures ProbeTrips(trips[id := t]) == ProbeTrips(trips)
  {
    var last := |trips| - 1;
    if id == last {
      assert trips[id := t][..last] == trips[..last];
    } else {
      ProbeTripsAfterUpdate(trips[..last], id, t);
      assert trips[id := t][..last] == trips[..last][id := t];
    }
  }

  lemma HistoryGrows(s: Settings, b: Breaker, calls: seq<Call>, c: Call)
    ensures Ran(s, b, calls + [c]) == Step(s, Ran(s, b, calls), c)
    ensures var b' := Ran(s, b, calls);
      Probes(s, b, calls + [c]) == Probes(s, b, calls)
        + (if c.Ask? && b'.state.Open? && Permits(s, b', c.at) then 1 else 0)
  {
    assert (calls + [c])[..|calls|] == calls;
  }

  lemma ProbeTripsGrow(trips: seq<Trip>, t: Trip)
    ensures ProbeTrips(trips + [t]) == ProbeTrips(trips) + (if t.probe then 1 else 0)
  {
    assert (trips + [t])[..|trips|] == trips;
  }

  lemma TailGrows<T>(items: seq<T>, n: nat, item: T)
    requires n <= |items|
    ensures (items + [item])[n..] == items[n..] + [item]
  {
  }

  lemma AccountedAfterAsk(s: Settings, before: Breaker, after: Breaker, calls: seq<Call>, trips: seq<Trip>,
                          idempotent: bool, at: int)
    requires Accounted(s, before, after, calls, trips)
    ensures Accounted(s, before, Asked(s, after, at), calls + [Ask(at)],
                      if Permits(s, after, at) then trips + [NewTrip(after, idempotent)] else trips)
  {
    HistoryGrows(s, before, calls, Ask(at));
    ProbeTripsGrow(trips, NewTrip(after, idempotent));
  }

  lemma HistoryAfterBegin(s: Settings, base: World, w: World, idempotent: bool, at: int)
    requires MatchesHistory(s, base, w)
    ensures MatchesHistory(s, base, Apply(s, w, Begin(idempotent, at)))
  {
    AccountedAfterAsk(s, base.breaker, w.breaker, w.calls[|base.calls|..], w.trips[|base.trips|..], idempotent, at);
    TailGrows(w.calls, |base.calls|, Ask(at));
    TailGrows(w.trips, |base.trips|, NewTrip(w.breaker, idempotent));
  }

  /** Changing what a trip has done so far changes no count of probes. */
  lemma ProbeTripsSince(base: World, w: World, id: nat, t: Trip)
    requires |base.trips| <= |w.trips| && id < |w.trips| && t.probe == w.trips[id].probe
    ensures ProbeTrips(w.trips[id := t][|base.trips|..]) == ProbeTrips(w.trips[|base.trips|..])
  {
    var n := |base.trips|;
    if id >= n {
      ProbeTripsAfterUpdate(w.trips[n..], id - n, t);
      assert w.trips[id := t][n..] == w.trips[n..][id - n := t];
    } else {
      assert w.trips[id := t][n..] == w.trips[n..];
    }
  }

  lemma HistoryKept(s: Settings, base: World, w: World, e: Event)
    requires MatchesHistory(s, base, w) && Enabled(w, e)
    ensures MatchesHistory(s, base, Apply(s, w, e))
  {
    if e.Begin? {
      HistoryAfterBegin(s, base, w, e.idempotent, e.at);
    } else {
      var w' := Apply(s, w, e);
      ProbeTripsSince(base, w, e.id, w'.trips[e.id]);
      if e.Complete? {
        HistoryGrows(s, base.breaker, w.calls[|base.calls|..], Record(e.success, e.at));
        assert w'.calls[|base.calls|..] == w.calls[|base.calls|..] + [Record(e.success, e.at)];
      }
    }
  }

  lemma ProbeStaysUnrecorded(s: Settings, w: World, e: Event)
    requires ProbeUnrecorded(w) && Enabled(w, e)
    ensures ProbeUnrecorded(Apply(s, w, e))
  {
  }

  lemma TripsStayBounded(s: Settings, w: World, e: Event)
    requires TripsBounded(w.trips) && Enabled(w, e)
    ensures TripsBounded(Apply(s, w, e).trips)
  {
  }

  lemma InvKept(s: Settings, w: World, e: Event)
    requires Inv(s, w) && Enabled(w, e)
    ensures Inv(s, Apply(s, w, e))
  {
    HistoryKept(s, Start, w, e);
    ProbeStaysUnrecorded(s, w, e);
    TripsStayBounded(s, w, e);
  }

  lemma {:induction false} InvAlways(s: Settings, w: World, es: seq<Event>)
    requires Inv(s, w) && Possible(s, w, es)
    ensures Inv(s, Outcome(s, w, es))
    decreases |es|
  {
    if es != [] {
      InvKept(s, w, es[0]);
      InvAlways(s, Apply(s, w, es[0]), es[1..]);
    }
  }

  predicate NoneAbandoned(trips: seq<Trip>) {
    forall i :: 0 <= i < |trips| ==> !trips[i].status.Abandoned?
  }

  lemma {:induction false} NoAbandonment(s: Settings, w: World, es: seq<Event>)
    requires Possible(s, w, es) && NoneAbandoned(w.trips)
    requires forall i :: 0 <= i < |es| ==> !es[i].Abandon?
    ensures NoneAbandoned(Outcome(s, w, es).trips)
    decreases |es|
  {
    if es != [] {
      assert !es[0].Abandon?;
      NoAbandonment(s, Apply(s, w, es[0]), es[1..]);
    }
  }

  /** Probe ownership: in the half-open state the probe that caused it has not recorded a
      result. It is still in flight, unless it was abandoned on an early return. */
  lemma HalfOpenHasItsProbe(s: Settings, es: seq<Event>)
    requires Possible(s, Start, es)
    ensures var w := Outcome(s, Start, es);
      w.breaker.state.HalfOpen? ==>
        && w.probe.Some? && w.probe.value < |w.trips| && w.trips[w.probe.value].probe
        && !w.trips[w.probe.value].status.Finished?
        && ((forall i :: 0 <= i < |es| ==> !es[i].Abandon?) ==> Aloft(w, w.probe.value))
  {
    InvAlways(s, Start, es);
    if forall i :: 0 <= i < |es| ==> !es[i].Abandon? {
      NoAbandonment(s, Start, es);
    }
  }

  /** A half-open episode lets nothing else through, and ends only when a result is recorded. */
  lemma {:induction false} EpisodeAdmitsOnlyItsProbe(s: Settings, w: World, es: seq<Event>)
    requires w.breaker.state.HalfOpen? && Possible(s, w, es)
    requires forall i :: 0 <= i < |es| ==> !es[i].Complete?
    ensures var w' := Outcome(s, w, es);
      w'.breaker == w.breaker && |w'.trips| == |w.trips| && w'.probe == w.probe
    decreases |es|
  {
    if es != [] {
      assert !es[0].Complete?;
      EpisodeAdmitsOnlyItsProbe(s, Apply(s, w, es[0]), es[1..]);
    }
  }

  lemma {:induction false} ProbeCallsAtMostThrice(trips: seq<Trip>)
    requires TripsBounded(trips)
    ensures ProbeCalls(trips) <= 3 * ProbeTrips(trips)
  {
    if trips != [] {
      ProbeCallsAtMostThrice(trips[..|trips| - 1]);
    }
  }

  lemma {:induction false} HistorySince(s: Settings, base: World, w: World, es: seq<Event>)
    requires MatchesHistory(s, base, w) && Possible(s, w, es)
    ensures MatchesHistory(s, base, Outcome(s, w, es))
    decreases |es|
  {
    if es != [] {
      HistoryKept(s, base, w, es[0]);
      HistorySince(s, base, Apply(s, w, es[0]), es[1..]);
    }
  }

  /** The breaker is moved by the calls of a stretch alone, and they are its probes that the
      stretch lets through, from any world. */
  lemma StretchMatchesCalls(s: Settings, w: World, es: seq<Event>)
    requires Possible(s, w, es)
    ensures var w' := Outcome(s, w, es);
      && |w.trips| <= |w'.trips|
      && w'.breaker == Ran(s, w.breaker, CallsOf(es))
      && ProbeTrips(w'.trips[|w.trips|..]) == Probes(s, w.breaker, CallsOf(es))
  {
    assert w.trips[|w.trips|..] == [] && w.calls[|w.calls|..] == [];
    HistorySince(s, w, w, es);
    CallsAreLogged(s, w, es);
    assert Outcome(s, w, es).calls[|w.calls|..] == CallsOf(es);
  }

  lemma {:induction false} TripsBoundedAlways(s: Settings, w: World, es: seq<Event>)
    requires TripsBounded(w.trips) && Possible(s, w, es)
    ensures TripsBounded(Outcome(s, w, es).trips)
    decreases |es|
  {
    if es != [] {
      TripsStayBounded(s, w, es[0]);
      TripsBoundedAlways(s, Apply(s, w, es[0]), es[1..]);
    }
  }

  /** In any stretch of a run whose clock readings span T ticks, the probes let through in it
      make at most 3 * (1 + T / (cooldown + 1)) upstream calls, however many round trips
      overlap and whatever came before. */
  lemma ProbeCallsAreFew(s: Settings, w: World, es: seq<Event>, start: int, span: nat)
    requires TripsBounded(w.trips) && Possible(s, w, es) && s.cooldown >= 0
    requires Ordered(start, CallsOf(es))
    requires forall i :: 0 <= i < |CallsOf(es)| ==> CallsOf(es)[i].at <= start + span
    ensures |w.trips| <= |Outcome(s, w, es).trips|
    ensures ProbeCalls(Outcome(s, w, es).trips[|w.trips|..]) <= 3 * (1 + span / (s.cooldown + 1))
  {
    StretchMatchesCalls(s, w, es);
    TripsBoundedAlways(s, w, es);
    ProbeCallsAtMostThrice(Outcome(s, w, es).trips[|w.trips|..]);
    ProbesAreFew(s, w.breaker, CallsOf(es), start, span);
  }

  // ----- the state no round trip can leave -----

  predicate NothingFlies(w: World) {
    forall id :: 0 <= id < |w.trips| ==> !w.trips[id].status.Flying?
  }

  /** Half-open, and no round trip left that could record a result. */
  predicate Wedged(w: World) {
    w.breaker.state.HalfOpen? && NothingFlies(w)
  }

  predicate Timely(now: int, es: seq<Event>)
    decreases |es|
  {
    es != [] ==>
      if es[0].Begin? || es[0].Complete? then now <= es[0].at && Timely(es[0].at, es[1..])
      else Timely(now, es[1..])
  }

  /** The continuation lets some request through. */
  predicate Admits(s: Settings, w: World, es: seq<Event>)
    requires Possible(s, w, es)
  {
    |Outcome(s, w, es).trips| > |w.trips|
  }

  lemma {:induction false} WedgedForGood(s: Settings, w: World, es: seq<Event>)
    requires Wedged(w) && Possible(s, w, es)
    ensures Wedged(Outcome(s, w, es)) && !Admits(s, w, es)
    decreases |es|
  {
    if es != [] {
      assert es[0].Begin?;
      WedgedForGood(s, Apply(s, w, es[0]), es[1..]);
    }
  }

  lemma TwoSteps(s: Settings, w: World, e: Event, f: Event)
    requires Enabled(w, e) && Enabled(Apply(s, w, e), f)
    ensures Possible(s, w, [e, f]) && Outcome(s, w, [e, f]) == Apply(s, Apply(s, w, e), f)
  {
    assert [e, f][1..] == [f] && [f][1..] == [];
    var w1 := Apply(s, w, e);
    assert Outcome(s, w1, [f]) == Apply(s, w1, f);
  }

  /** Unless wedged, the breaker can still come to let a request through. */
  lemma CanAdmit(s: Settings, w: World, now: int) returns (es: seq<Event>)
    requires Inv(s, w) && !Wedged(w)
    ensures Possible(s, w, es) && Timely(now, es) && Admits(s, w, es)
  {
    if !w.breaker.state.HalfOpen? {
      var due := w.breaker.changed + s.cooldown + 1;
      es := [Begin(true, if now < due then due else now)];
      assert es[1..] == [];
    } else {
      var id :| 0 <= id < |w.trips| && w.trips[id].status.Flying?;
      var land, next := Complete(id, true, now), Begin(true, now);
      assert [land, next][1..] == [next] && [next][1..] == [] && Timely(now, [next]);
      if w.trips[id].attempts > 0 {
        es := [land, next];
        TwoSteps(s, w, land, next);
      } else {
        var w1 := Apply(s, w, Attempt(id));
        es := [Attempt(id), land, next];
        TwoSteps(s, w1, land, next);
        assert es[1..] == [land, next];
      }
    }
  }

  ghost predicate NeverAdmitsAgain(s: Settings, w: World, now: int) {
    forall es: seq<Event> :: Possible(s, w, es) && Timely(now, es) ==> !Admits(s, w, es)
  }

  /** The breaker can never again let a request through exactly when it is half-open with
      no round trip in flight. */
  lemma NeverAdmitsAgainIffWedged(s: Settings, w: World, now: int)
    requires Inv(s, w)
    ensures NeverAdmitsAgain(s, w, now) <==> Wedged(w)
  {
    if Wedged(w) {
      forall es: seq<Event> | Possible(s, w, es) && Timely(now, es) ensures !Admits(s, w, es) {
        WedgedForGood(s, w, es);
      }
    } else {
      var es := CanAdmit(s, w, now);
    }
  }

  lemma EventFirst(s: Settings, w: World, e: Event, rest: seq<Event>, now: int)
    requires Enabled(w, e) && Possible(s, Apply(s, w, e), rest)
    ensures Possible(s, w, [e] + rest) && Outcome(s, w, [e] + rest) == Outcome(s, Apply(s, w, e), rest)
    ensures (e.Begin? || e.Complete?) && now <= e.at && Timely(e.at, rest) ==> Timely(now, [e] + rest)
    ensures !e.Begin? && !e.Complete? && Timely(now, rest) ==> Timely(now, [e] + rest)
  {
    assert ([e] + rest)[1..] == rest;
  }

  /** An open breaker with nothing in flight is wedged by one probe that returns early. */
  lemma ProbeCanWedge(s: Settings, w: World) returns (es: seq<Event>)
    requires w.breaker.state.Open? && w.breaker.changed == 0 && NothingFlies(w)
    ensures Possible(s, w, es) && Timely(0, es) && Wedged(Outcome(s, w, es))
  {
    var ask, leave := Begin(true, if s.cooldown < 0 then 0 else s.cooldown + 1), Abandon(|w.trips|);
    es := [ask, leave];
    assert es[1..] == [leave] && [leave][1..] == [];
    TwoSteps(s, w, ask, leave);
  }

  lemma {:induction false} WedgeFrom(s: Settings, w: World) returns (es: seq<Event>)
    requires NothingFlies(w) && (w.breaker.state.Closed? || (w.breaker.state.Open? && w.breaker.changed == 0))
    ensures Possible(s, w, es) && Timely(0, es) && Wedged(Outcome(s, w, es))
    decreases w.breaker.state.Closed?, s.threshold - w.breaker.failures
  {
    if w.breaker.state.Open? {
      es := ProbeCanWedge(s, w);
    } else {
      var ask, call, fail := Begin(false, 0), Attempt(|w.trips|), Complete(|w.trips|, false, 0);
      var w1 := Apply(s, w, ask);
      var w2 := Apply(s, w1, call);
      var w3 := Apply(s, w2, fail);
      var rest := WedgeFrom(s, w3);
      EventFirst(s, w2, fail, rest, 0);
      EventFirst(s, w1, call, [fail] + rest, 0);
      EventFirst(s, w, ask, [call] + ([fail] + rest), 0);
      es := [ask] + ([call] + ([fail] + rest));
    }
  }

  /** The early returns do get it there, whatever the threshold and the cooldown: calls fail
      until the breaker opens, and then the probe is abandoned before it records. */
  lemma AbandonedProbeWedges(s: Settings) returns (es: seq<Event>)
    ensures Possible(s, Start, es) && Timely(0, es) && Wedged(Outcome(s, Start, es))
  {
    es := WedgeFrom(s, Start);
  }

  /** And only they do: with none abandoned, the breaker is never wedged. */
  lemma OnlyAbandonmentWedges(s: Settings, es: seq<Event>)
    requires Possible(s, Start, es)
    requires forall i :: 0 <= i < |es| ==> !es[i].Abandon?
    ensures !Wedged(Outcome(s, Start, es))
  {
    HalfOpenHasItsProbe(s, es);
  }
}
