/** The `HealthCheck` class: the same breaker as `CircuitBraker`, with its own
    rejection message and a `reset()` that is the only way back to CLOSED. */
module HealthChecks {
  import opened Outcomes
  import opened Breaker

  /** The message of the error an OPEN health check throws. */
  const Rejection: string := "Health check is OPEN"

  class HealthCheck {
    var failures: nat
    /** Assigned once, at creation; no method changes it. */
    const threshold: nat := DefaultThreshold
    /** Typed in the source as the union of "CLOSED" and "OPEN", which `State` is. */
    var state: State

    ghost predicate Valid()
      reads this
    {
      Consistent(threshold, Current())
    }

    function Current(): Status
      reads this
    {
      Status(state, failures)
    }

    constructor ()
      ensures Valid()
      ensures state == Closed && failures == 0 && threshold == 5
    {
      failures := 0;
      state := Closed;
    }

    /** `execute(fn)`, where `outcome` is what `fn` would do if invoked and
        `calls` is how many times it was invoked. */
    method Execute<V, E>(outcome: Outcome<V, E>) returns (r: Result<V, E>, calls: nat)
      requires Valid()
      modifies this
      ensures Valid()
      ensures Transition(Current(), r, calls) == Step(Rejection, threshold, old(Current()), outcome)
      ensures old(state) == Open ==> r == Err(ErrorMessage(Rejection)) && calls == 0 && unchanged(this)
    {
      if state == Open {
        return Err(ErrorMessage(Rejection)), 0;
      }
      calls := 1;
      match outcome {
        case Returns(v) =>
          failures := 0;
          r := Ok(v);
        case Throws(e) =>
          failures := failures + 1;
          if failures >= threshold {
            state := Open;
          }
          r := Err(Rethrown(e));
      }
    }

    /** Back to the fields of a new health check, from any state. The new
        fields do not depend on the old ones, so a second `Reset` changes
        nothing. */
    method Reset()
      modifies this
      ensures Valid()
      ensures Current() == Initial
    {
      failures := 0;
      state := Closed;
    }
  }

  /** Whatever state a health check is in, after `reset()` four failures leave
      it CLOSED and the fifth opens it; another reset closes it again, and a
      reset straight after a reset changes nothing. */
  method ResetThenFiveFailures<V, E>(h: HealthCheck, e: E) returns (afterFour: Status, afterFive: Status)
    modifies h
    ensures afterFour == Status(Closed, 4) && afterFive == Status(Open, 5)
    ensures h.Valid() && h.Current() == Initial
  {
    h.Reset();
    var r, calls := h.Execute<V, E>(Throws(e));
    r, calls := h.Execute<V, E>(Throws(e));
    r, calls := h.Execute<V, E>(Throws(e));
    r, calls := h.Execute<V, E>(Throws(e));
    afterFour := h.Current();
    r, calls := h.Execute<V, E>(Throws(e));
    assert r == Err(Rethrown(e)) && calls == 1;
    afterFive := h.Current();
    h.Reset();
    var once := h.Current();
    h.Reset();
    assert h.Current() == once;
  }
}
