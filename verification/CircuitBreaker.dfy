/** The circuit breaker on values and as an object; both methods are atomic steps. */
module CircuitBreakers {

  datatype State = Closed | HalfOpen | Open

  datatype Settings = Settings(threshold: int, cooldown: int)

  datatype Breaker = Breaker(state: State, failures: int, changed: int)

  const Fresh: Breaker := Breaker(Closed, 0, 0)

  predicate Permits(s: Settings, b: Breaker, now: int) {
    b.state.Closed? || (b.state.Open? && now - b.changed > s.cooldown)
  }

  function Asked(s: Settings, b: Breaker, now: int): Breaker {
    if b.state.Open? && now - b.changed > s.cooldown then b.(state := HalfOpen, changed := now) else b
  }

  function Recorded(s: Settings, b: Breaker, success: bool, now: int): Breaker {
    if success then b.(state := Closed, failures := 0)
    else if b.state.HalfOpen? || b.failures + 1 >= s.threshold then Breaker(Open, b.failures + 1, now)
    else b.(failures := b.failures + 1)
  }

  class CircuitBreaker {
    var state: State
    var failures: int
    var lastStateChange: int
    const threshold: int
    const cooldown: int

    ghost function Value(): Breaker
      reads this
    {
      Breaker(state, failures, lastStateChange)
    }

    ghost function S(): Settings {
      Settings(threshold, cooldown)
    }

    constructor (threshold: int, cooldown: int)
      ensures S() == Settings(threshold, cooldown) && Value() == Fresh
    {
      this.threshold := threshold;
      this.cooldown := cooldown;
      this.state, this.failures, this.lastStateChange := Closed, 0, 0;
    }

    method Allow(now: int) returns (ok: bool)
      modifies this
      ensures ok == Permits(S(), old(Value()), now)
      ensures Value() == Asked(S(), old(Value()), now)
    {
      if state == Open {
        if now - lastStateChange > cooldown {
          state := HalfOpen;
          lastStateChange := now;
          return true;
        }
        return false;
      }
      if state == HalfOpen {
        return false;
      }
      return true;
    }

    method RecordResult(success: bool, now: int)
      modifies this
      ensures Value() == Recorded(S(), old(Value()), success, now)
    {
      if success {
        failures := 0;
        state := Closed;
        return;
      }
      failures := failures + 1;
      if state == HalfOpen || failures >= threshold {
        state := Open;
        lastStateChange := now;
      }
    }
  }
}
