/** The round trip of the transport, seen as the steps it takes in the shared breaker
    protocol while other round trips take theirs. */
module RoundTripProtocol {
  import opened BreakerHistory
  import opened CircuitBreakers
  import opened BreakerProtocol
  import T = ResilientTransports

  // ----- the steps of one round trip -----

  /** The steps from attempt k on, of the round trip with that id. */
  function Steps(id: nat, limit: nat, turns: seq<T.Turn>, k: nat, done: int): seq<Event>
    requires k < limit <= |turns|
    decreases limit - k
  {
    if k > 0 && turns[k].cancelled then [Abandon(id)]
    else if T.Good(turns[k].outcome) || k + 1 == limit then
      [Attempt(id)] + [Complete(id, T.Good(turns[k].outcome), done)]
    else [Attempt(id)] + Steps(id, limit, turns, k + 1, done)
  }

  /** All steps after the breaker let it through. A body that cannot be read is found out
      before the first attempt, and only where there may be retries. */
  function TripSteps(id: nat, limit: nat, unreadable: bool, turns: seq<T.Turn>, done: int): seq<Event>
    requires 0 < limit <= |turns|
  {
    if limit == 3 && unreadable then [Abandon(id)] else Steps(id, limit, turns, 0, done)
  }

  /** What is left of the trip after them, and what it recorded. */
  function EndsAs(limit: nat, unreadable: bool, turns: seq<T.Turn>): (nat, Status)
    requires 0 < limit <= |turns|
  {
    if limit == 3 && unreadable then (0, Abandoned)
    else
      match T.Ends(limit, turns, 0)
      case Returned(last) => (last + 1, Finished)
      case Cancelled(before) => (before, Abandoned)
  }

  function Recording(limit: nat, unreadable: bool, turns: seq<T.Turn>, done: int): seq<Call>
    requires 0 < limit <= |turns|
  {
    if limit == 3 && unreadable then []
    else
      match T.Ends(limit, turns, 0)
      case Returned(last) => [Record(last < limit && T.Good(turns[last].outcome), done)]
      case Cancelled(_) => []
  }

  // ----- a trip's steps depend on the trip alone -----

  predicate Ready(t: Trip, e: Event) {
    t.status.Flying? &&
    match e
    case Begin(_, _) => false
    case Attempt(_) => t.attempts < t.limit
    case Complete(_, success, _) => t.attempts > 0 && (success || t.attempts == t.limit)
    case Abandon(_) => t.limit == 3 && t.attempts < 3
  }

  function Moved(t: Trip, e: Event): Trip {
    match e
    case Begin(_, _) => t
    case Attempt(_) => t.(attempts := t.attempts + 1)
    case Complete(_, _, _) => t.(status := Finished)
    case Abandon(_) => t.(status := Abandoned)
  }

  predicate CanTake(t: Trip, steps: seq<Event>)
    decreases |steps|
  {
    steps != [] ==> Ready(t, steps[0]) && CanTake(Moved(t, steps[0]), steps[1..])
  }

  function AfterSteps(t: Trip, steps: seq<Event>): Trip
    decreases |steps|
  {
    if steps == [] then t else AfterSteps(Moved(t, steps[0]), steps[1..])
  }

  lemma OneStep(t: Trip, e: Event, rest: seq<Event>)
    ensures CanTake(t, [e] + rest) <==> Ready(t, e) && CanTake(Moved(t, e), rest)
    ensures AfterSteps(t, [e] + rest) == AfterSteps(Moved(t, e), rest)
    ensures CallsOf([e] + rest) == CallOf(e) + CallsOf(rest)
  {
    assert ([e] + rest)[1..] == rest;
  }

  /** On its own, a trip in flight can take the steps the retry loop takes from attempt k on,
      and ends as the loop does, with the one record of a completed call. */
  lemma {:induction false} LoopTakesItsSteps(id: nat, limit: nat, turns: seq<T.Turn>, k: nat, done: int, t: Trip)
    requires k < limit <= |turns| && (limit == 1 || limit == 3)
    requires t.status.Flying? && t.limit == limit && t.attempts == k
    ensures var steps := Steps(id, limit, turns, k, done);
      && CanTake(t, steps)
      && match T.Ends(limit, turns, k)
         case Returned(last) =>
           && AfterSteps(t, steps) == t.(attempts := last + 1, status := Finished)
           && CallsOf(steps) == [Record(last < limit && T.Good(turns[last].outcome), done)]
         case Cancelled(before) =>
           && AfterSteps(t, steps) == t.(attempts := before, status := Abandoned)
           && CallsOf(steps) == []
    decreases limit - k
  {
    if k > 0 && turns[k].cancelled {
      assert [Abandon(id)] == [Abandon(id)] + [];
      OneStep(t, Abandon(id), []);
    } else if T.Good(turns[k].outcome) || k + 1 == limit {
      var land := Complete(id, T.Good(turns[k].outcome), done);
      assert [land] == [land] + [];
      OneStep(Moved(t, Attempt(id)), land, []);
      OneStep(t, Attempt(id), [land]);
    } else {
      LoopTakesItsSteps(id, limit, turns, k + 1, done, Moved(t, Attempt(id)));
      OneStep(t, Attempt(id), Steps(id, limit, turns, k + 1, done));
    }
  }

  // ----- among other round trips -----

  predicate IsStepOf(id: nat, e: Event) {
    !e.Begin? && e.id == id
  }

  /** The steps of one trip in a run, in order. */
  function StepsOf(id: nat, es: seq<Event>): seq<Event> {
    if es == [] then [] else (if IsStepOf(id, es[0]) then [es[0]] else []) + StepsOf(id, es[1..])
  }

  /** Every event that is not a step of the trip happens when the protocol allows it. */
  predicate OthersFollow(s: Settings, w: World, id: nat, es: seq<Event>)
    decreases |es|
  {
    es != [] ==>
      && (IsStepOf(id, es[0]) || Enabled(w, es[0]))
      && (Enabled(w, es[0]) ==> OthersFollow(s, Apply(s, w, es[0]), id, es[1..]))
  }

  /** Whatever other trips do between its steps, a trip that can take them alone can take
      them among the others, and ends the same. */
  lemma {:induction false} OthersDoNotHinder(s: Settings, w: World, id: nat, es: seq<Event>)
    requires id < |w.trips| && OthersFollow(s, w, id, es) && CanTake(w.trips[id], StepsOf(id, es))
    ensures Possible(s, w, es) && id < |Outcome(s, w, es).trips|
    ensures Outcome(s, w, es).trips[id] == AfterSteps(w.trips[id], StepsOf(id, es))
    decreases |es|
  {
    if es != [] {
      var e, rest := es[0], es[1..];
      if IsStepOf(id, e) {
        OneStep(w.trips[id], e, StepsOf(id, rest));
        assert Ready(w.trips[id], e) && Enabled(w, e);
        assert Apply(s, w, e).trips[id] == Moved(w.trips[id], e);
      } else {
        assert StepsOf(id, es) == StepsOf(id, rest);
        assert Apply(s, w, e).trips[id] == w.trips[id];
      }
      OthersDoNotHinder(s, Apply(s, w, e), id, rest);
    }
  }

  /** Whatever the upstream does, and whatever other round trips do meanwhile, a round trip
      the breaker lets through follows the protocol: all its steps are possible, it makes
      the attempts the retry loop makes, a completed call records its one result, and one
      that returns early is abandoned and records nothing. The breaker has seen its call to
      Allow, its record and the calls of the others, in order. */
  lemma RoundTripFollowsProtocol(s: Settings, w: World, idempotent: bool, unreadable: bool, turns: seq<T.Turn>,
                                 asked: int, done: int, es: seq<Event>)
    requires |turns| >= 3 && Permits(s, w.breaker, asked)
    requires OthersFollow(s, Apply(s, w, Begin(idempotent, asked)), |w.trips|, es)
    requires StepsOf(|w.trips|, es) == TripSteps(|w.trips|, if idempotent then 3 else 1, unreadable, turns, done)
    ensures var id, limit, run := |w.trips|, if idempotent then 3 else 1, [Begin(idempotent, asked)] + es;
      && Possible(s, w, run)
      && var w' := Outcome(s, w, run);
      var (attempts, status) := EndsAs(limit, unreadable, turns);
      && id < |w'.trips| && w'.trips[id] == Trip(w.breaker.state.Open?, limit, attempts, status)
      && CallsOf(StepsOf(id, es)) == Recording(limit, unreadable, turns, done)
      && w'.breaker == Ran(s, w.breaker, CallsOf(run))
  {
    var id, limit, start := |w.trips|, if idempotent then 3 else 1, Begin(idempotent, asked);
    var w1 := Apply(s, w, start);
    if limit == 3 && unreadable {
      assert [Abandon(id)] == [Abandon(id)] + [];
      OneStep(w1.trips[id], Abandon(id), []);
    } else {
      LoopTakesItsSteps(id, limit, turns, 0, done, w1.trips[id]);
    }
    OthersDoNotHinder(s, w1, id, es);
    assert ([start] + es)[1..] == es;
    StretchMatchesCalls(s, w, [start] + es);
  }
}
