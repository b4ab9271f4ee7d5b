/** `retryWithBackoff(fn, maxRetries = 3)`: a loop over attempt indices that
    was meant to retry `fn` with an exponentially growing delay. As written,
    every path through the loop body leaves the function, so `fn` is invoked
    at most once; `RetryWithBackoff` models that. `RetryWithBackoffIntended`
    models the loop the comments describe. */
module Retry {
  import opened Outcomes

  const DefaultMaxRetries: int := 3

  /** The message of the error thrown when the loop never runs. */
  const MaxRetriesMessage: string := "Max retries reached without success"

  /** What a call of `retryWithBackoff` returns or throws: `fn`'s own return
      value, a promise that only waits `ms` milliseconds and then resolves
      with nothing, or a thrown error. */
  datatype RetryResult<+V, +E> = Returned(value: V) | Timer(ms: nat) | Raised(thrown: Thrown<E>)

  function Pow2(k: nat): (p: nat)
    ensures p >= 1
  {
    if k == 0 then 1 else 2 * Pow2(k - 1)
  }

  /** The delay before attempt `attempt + 1`, in milliseconds: 100 × 2^attempt. */
  function BackoffDelay(attempt: nat): (ms: nat)
    ensures ms >= 100 && ms % 100 == 0
  {
    Pow2(attempt) * 100
  }

  /** Each delay is twice the one before it, starting at 100 ms. */
  lemma BackoffDoubles(attempt: nat)
    ensures BackoffDelay(0) == 100
    ensures BackoffDelay(attempt + 1) == 2 * BackoffDelay(attempt)
  {
  }

  /** Later attempts wait strictly longer. */
  lemma {:induction false} BackoffStrictlyIncreasing(i: nat, j: nat)
    requires i < j
    ensures BackoffDelay(i) < BackoffDelay(j)
    decreases j
  {
    if i < j - 1 {
      BackoffStrictlyIncreasing(i, j - 1);
    }
    BackoffDoubles(j - 1);
  }

  /** The first delays are 100, 200 and 400 ms. */
  lemma FirstDelays()
    ensures BackoffDelay(0) == 100 && BackoffDelay(1) == 200 && BackoffDelay(2) == 400
  {
    BackoffDoubles(0);
    BackoffDoubles(1);
  }

  /** The helper as written. `fn(n)` is what `fn` does on its `n`-th invocation
      (a synchronous throw, or a return, whose value is passed back as it is),
      and `calls` counts the invocations. */
  method RetryWithBackoff<V, E>(fn: nat -> Outcome<V, E>, maxRetries: int := DefaultMaxRetries)
    returns (r: RetryResult<V, E>, calls: nat)
    // The loop never runs: `fn` is not invoked and the "max retries" error is thrown.
    ensures maxRetries <= 0 ==> calls == 0 && r == Raised(ErrorMessage(MaxRetriesMessage))
    // Otherwise `fn` is invoked exactly once, never a second time.
    ensures maxRetries > 0 ==> calls == 1
    // A normal return is passed back unchanged, with no delay.
    ensures maxRetries > 0 && fn(0).Returns? ==> r == Returned(fn(0).value)
    // A throw on the last allowed attempt is rethrown as it is.
    ensures maxRetries == 1 && fn(0).Throws? ==> r == Raised(Rethrown(fn(0).error))
    // A throw before the last attempt yields only the first backoff timer; `fn` is not retried.
    ensures maxRetries > 1 && fn(0).Throws? ==> r == Timer(BackoffDelay(0))
  {
    calls := 0;
    // `attempt < maxRetries` in the source; no attempt at all when maxRetries <= 0.
    for attempt := 0 to if maxRetries < 0 then 0 else maxRetries
      // Every path through the body returns, so the body only ever runs for
      // attempt 0.
      invariant attempt == 0 && calls == 0
    {
      var outcome := fn(calls);
      calls := calls + 1;
      match outcome {
        case Returns(v) =>
          return Returned(v), calls;
        case Throws(e) =>
          if attempt == maxRetries - 1 {
            return Raised(Rethrown(e)), calls;
          }
          var backoffTime := BackoffDelay(attempt);
          return Timer(backoffTime), calls;
      }
    }
    return Raised(ErrorMessage(MaxRetriesMessage)), calls;
  }

  /** The default of three retries, with an operation that throws at first and
      would succeed on its second invocation: the caller gets a 100 ms timer,
      `fn` is invoked once. */
  method DefaultRetryDoesNotRetry() returns (r: RetryResult<int, string>, calls: nat)
    ensures r == Timer(100) && calls == 1
  {
    r, calls := RetryWithBackoff((n: nat) => if n == 0 then Throws("transient") else Returns(7));
    FirstDelays();
  }

  /** The retry loop the helper's comments describe: after a throw before the
      last attempt it waits the backoff delay and invokes `fn` again; a throw
      on the last attempt is rethrown. `delays` lists the waits, in order. */
  method RetryWithBackoffIntended<V, E>(fn: nat -> Outcome<V, E>, maxRetries: int := DefaultMaxRetries)
    returns (r: RetryResult<V, E>, calls: nat, delays: seq<nat>)
    ensures maxRetries <= 0 ==> calls == 0 && delays == [] && r == Raised(ErrorMessage(MaxRetriesMessage))
    // At least one and at most `maxRetries` invocations; all but the last one threw.
    ensures maxRetries > 0 ==> 1 <= calls <= maxRetries
    ensures forall j :: 0 <= j < calls - 1 ==> fn(j).Throws?
    // The n-th wait, between invocations n and n + 1, is BackoffDelay(n).
    ensures |delays| == (if calls == 0 then 0 else calls - 1)
    ensures forall j :: 0 <= j < |delays| ==> delays[j] == BackoffDelay(j)
    // It stops at the first normal return, passing its value back, or rethrows
    // the error of the last allowed attempt.
    ensures calls > 0 && fn(calls - 1).Returns? ==> r == Returned(fn(calls - 1).value)
    ensures calls > 0 && fn(calls - 1).Throws? ==> calls == maxRetries && r == Raised(Rethrown(fn(calls - 1).error))
  {
    calls, delays := 0, [];
    for attempt := 0 to if maxRetries < 0 then 0 else maxRetries
      invariant calls == attempt
      invariant maxRetries > 0 ==> attempt < maxRetries
      invariant forall j :: 0 <= j < attempt ==> fn(j).Throws?
      invariant |delays| == attempt
      invariant forall j :: 0 <= j < attempt ==> delays[j] == BackoffDelay(j)
    {
      var outcome := fn(attempt);
      calls := calls + 1;
      match outcome {
        case Returns(v) =>
          return Returned(v), calls, delays;
        case Throws(e) =>
          if attempt == maxRetries - 1 {
            return Raised(Rethrown(e)), calls, delays;
          }
          delays := delays + [BackoffDelay(attempt)];
      }
    }
    return Raised(ErrorMessage(MaxRetriesMessage)), calls, delays;
  }

  /** The same operation and the default three retries under the intended
      loop: `fn` is invoked twice, after one 100 ms wait, and its value is
      returned. */
  method DefaultRetryRetries() returns (r: RetryResult<int, string>, calls: nat, delays: seq<nat>)
    ensures r == Returned(7) && calls == 2 && delays == [100]
  {
    var fn := (n: nat) => if n == 0 then Throws("transient") else Returns(7);
    r, calls, delays := RetryWithBackoffIntended(fn);
    // The second invocation returns, so the loop stops there at the latest.
    assert fn(1) == Returns(7);
    FirstDelays();
  }

  /** Under the intended loop (`RetryWithBackoffIntended`): two failures and
      then a success, with three attempts allowed. The value is returned after
      three invocations and waits of 100 and 200 ms. The helper as written
      returns a 100 ms timer after one invocation on this input. */
  method SucceedsOnLastAttempt() returns (r: RetryResult<int, string>, calls: nat, delays: seq<nat>)
    ensures r == Returned(7) && calls == 3 && delays == [100, 200]
  {
    var fn := (n: nat) => if n < 2 then Throws("transient") else Returns(7);
    r, calls, delays := RetryWithBackoffIntended(fn, 3);
    FirstDelays();
  }
}
