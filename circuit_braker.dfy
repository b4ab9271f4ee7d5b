/** The `CircuitBraker` class: a breaker with a fixed threshold that, once
    OPEN, stays OPEN for the life of the object. */
module CircuitBrakers {
  import opened Outcomes
  import opened Breaker

  /** The message of the error an OPEN breaker throws. */
  const Rejection: string := "Circuit braker is OPEN"

  class CircuitBraker {
    var failures: nat
    /** Assigned once, at creation; no method changes it. */
    const treshold: nat := DefaultThreshold
    var state: State

    ghost predicate Valid()
      reads this
    {
      Consistent(treshold, Current())
    }

    function Current(): Status
      reads this
    {
      Status(state, failures)
    }

    constructor ()
      ensures Valid()
      ensures state == Closed && failures == 0 && treshold == 5
    {
      failures := 0;
      state := Closed;
    }

    /** `execute(fn)`, where `outcome` is what `fn` would do if invoked and
        `calls` is how many times it was invoked. */
    method Execute<V, E>(outcome: Outcome<V, E>) returns (r: Result<V, E>, calls: nat)
      requires Valid()
      modifies this
      ensures Valid()
      ensures Transition(Current(), r, calls) == Step(Rejection, treshold, old(Current()), outcome)
      ensures old(state) == Open ==> r == Err(ErrorMessage(Rejection)) && calls == 0 && unchanged(this)
    {
      if state == Open {
        return Err(ErrorMessage(Rejection)), 0;
      }
      calls := 1;
      match outcome {
        case Returns(v) =>
          failures := 0;
          r := Ok(v);
        case Throws(e) =>
          failures := failures + 1;
          if failures >= treshold {
            state := Open;
          }
          r := Err(Rethrown(e));
      }
    }
  }

  /** A new breaker lets four failures through and opens on the fifth; from
      then on every call is rejected without invoking `fn`, even one that
      would have succeeded. */
  method FifthFailureOpensBreaker<V, E>(v: V, e: E) returns (b: CircuitBraker, afterFour: Status, r: Result<V, E>, calls: nat)
    ensures afterFour == Status(Closed, 4)
    ensures fresh(b) && b.Valid() && b.state == Open && b.failures == 5
    ensures r == Err(ErrorMessage(Rejection)) && calls == 0
  {
    b := new CircuitBraker();
    r, calls := b.Execute<V, E>(Throws(e));
    r, calls := b.Execute<V, E>(Throws(e));
    r, calls := b.Execute<V, E>(Throws(e));
    r, calls := b.Execute<V, E>(Throws(e));
    assert r == Err(Rethrown(e)) && calls == 1;
    afterFour := b.Current();
    r, calls := b.Execute<V, E>(Throws(e));
    assert b.state == Open && r == Err(Rethrown(e));
    r, calls := b.Execute<V, E>(Returns(v));
  }
}
