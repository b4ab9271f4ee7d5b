# Resilience helpers of scalable-micro, modelled in Dafny

The repository holds three small helpers that wrap a fallible operation `fn`:

- `CircuitBraker` counts consecutive failures of `fn`, resets the count on a
  success, and latches OPEN when the count reaches its threshold of 5. While
  OPEN it rejects every call with the error "Circuit braker is OPEN" without
  invoking `fn`. Nothing in the class ever leaves OPEN.
- `HealthCheck` is the same machine with the message "Health check is OPEN"
  and a `reset()` that puts it back to CLOSED with no failures counted.
- `retryWithBackoff(fn, maxRetries = 3)` is a loop over attempt indices with
  an exponential delay of 2^attempt × 100 ms. As written, the loop makes at
  most one real attempt.

The operation is given as its outcome, `Returns(v)` or `Throws(e)`. Each
model also reports `calls`, the number of times `fn` was invoked. A breaker
call returns `Ok(v)` or `Err(thrown)`. The thrown error is either `fn`'s own
error (`Rethrown`) or a new `Error` that carries the wrapper's message
(`ErrorMessage`).

Files:

- `outcomes.dfy` (module `Outcomes`): the outcome of `fn` and the results.
- `breaker.dfy` (module `Breaker`): the pure specification both breaker
  classes share. `Step` is one `execute` call and `Run` is a sequence of
  calls. The module also holds the invariant `Consistent` and the lemmas about
  consecutive failures.
- `circuit_braker.dfy` (module `CircuitBrakers`): class `CircuitBraker`. Its
  fields are `failures`, `treshold` and `state`, and `Execute` is proved
  against `Step`.
- `health_check.dfy` (module `HealthChecks`): class `HealthCheck`, with
  `Execute` and `Reset`.
- `retry.dfy` (module `Retry`): the backoff delay, `RetryWithBackoff` as
  written, and the intended retry loop (see Findings).

## Model

| member | source | states |
|---|---|---|
| `Breaker.Step` | CircuitBraker.ts:6-22 | When OPEN: rejects with the breaker's message, invokes `fn` zero times, and keeps both fields. When CLOSED: invokes `fn` once. A success sets failures to 0, returns `fn`'s value and stays CLOSED. A failure adds exactly 1 and rethrows the original error. The new state is OPEN exactly when it was OPEN already or a failure brought the count to at least the threshold. Preserves `Consistent`. |
| `Breaker.Run` | CircuitBraker.ts:1-23 | For any sequence of calls: OPEN is absorbing, so a run that starts OPEN ends in the same state with the same count. `Consistent` holds throughout (CLOSED means fewer than threshold failures; OPEN means exactly threshold). |
| `Breaker.ConsecutiveFailures` | CircuitBraker.ts:15-19 | Start CLOSED with `f` < threshold failures and apply `k` more failures. The result is CLOSED with `f + k` if `f + k` stays below the threshold. Otherwise it is OPEN with the count equal to the threshold. |
| `Breaker.FifthFailureOpens` | CircuitBraker.ts:2-19 | A new breaker with threshold 5: four failures give CLOSED with 4, and the fifth gives OPEN with 5. |
| `Breaker.RunCountsConsecutiveFailures` | CircuitBraker.ts:11-19 | Start from a new breaker and apply any sequence of outcomes. The breaker is OPEN exactly when the sequence holds `threshold` failures in a row. Otherwise it is CLOSED and its count is the number of failures since the last success. |
| `Breaker.TrailingThrowsSuffix` | CircuitBraker.ts:13-16 | The count of failures since the last success is at least `n` exactly when the last `n` outcomes are all failures. |
| `CircuitBrakers.CircuitBraker.constructor` | CircuitBraker.ts:2-4 | A new breaker is CLOSED, with 0 failures and threshold 5. |
| `CircuitBrakers.CircuitBraker.Execute` | CircuitBraker.ts:6-22 | The new fields, the result and the invocation count are exactly those of `Step` with the message "Circuit braker is OPEN". When OPEN the object is unchanged and `fn` is not invoked. The invariant `Valid` is kept. |
| `CircuitBrakers.FifthFailureOpensBreaker` | CircuitBraker.ts:7-19 | On a new object, four failures leave it CLOSED with 4 and the fifth consecutive failure opens it. A later call that would succeed is rejected with "Circuit braker is OPEN" and `fn` is not invoked. |
| `HealthChecks.HealthCheck.constructor` | healthCheck.ts:2-4 | A new health check is CLOSED, with 0 failures and threshold 5. The state only ranges over CLOSED and OPEN. |
| `HealthChecks.HealthCheck.Execute` | healthCheck.ts:6-22 | The new fields, the result and the invocation count are exactly those of `Step` with the message "Health check is OPEN". When OPEN no field changes and `fn` is not invoked. |
| `HealthChecks.HealthCheck.Reset` | healthCheck.ts:24-27 | From any state: CLOSED with 0 failures, and `Valid` holds. The new fields do not depend on the old ones, so a reset is idempotent. |
| `HealthChecks.ResetThenFiveFailures` | healthCheck.ts:16-27 | Whatever the state before: after `reset()`, four failures leave the check CLOSED with 4, the fifth opens it with 5, and a reset closes it again. |
| `Retry.BackoffDelay` | retry.ts:12 | Every delay is a positive multiple of 100 ms. |
| `Retry.BackoffDoubles` | retry.ts:12 | The delay for attempt 0 is 100 ms, and each attempt's delay is twice the previous one. |
| `Retry.BackoffStrictlyIncreasing` | retry.ts:12 | The delay is strictly increasing in the attempt index. |
| `Retry.FirstDelays` | retry.ts:12 | The first delays are 100, 200 and 400 ms. |
| `Retry.RetryWithBackoff` | retry.ts:1-18 | If `maxRetries <= 0`, `fn` is never invoked and "Max retries reached without success" is thrown. Otherwise `fn` is invoked exactly once. A normal return is passed back unchanged, with no delay. A throw on the last allowed attempt (`maxRetries == 1`) is rethrown unchanged. A throw before the last attempt yields only the 100 ms timer for attempt 0. |
| `Retry.DefaultRetryDoesNotRetry` | retry.ts:3-14 | `maxRetries` defaults to 3. Take an operation that throws first and would succeed on its second invocation: the caller gets a 100 ms timer, and `fn` is invoked once. |
| `Retry.RetryWithBackoffIntended` | retry.ts:5-17 | The intended loop. It makes between 1 and `maxRetries` invocations (none if `maxRetries <= 0`, which throws the "max retries" error). Every invocation but the last threw. The wait before invocation `n + 1` is `BackoffDelay(n)`. It stops at the first normal return and passes back that return's value. Otherwise it rethrows the error of the last allowed attempt. |
| `Retry.DefaultRetryRetries` | retry.ts:5-14 | Same operation and defaults as `DefaultRetryDoesNotRetry`. Under the intended loop, `fn` is invoked twice with one 100 ms wait, and its value is returned. |
| `Retry.SucceedsOnLastAttempt` | retry.ts:5-14 | Under the intended loop (`RetryWithBackoffIntended`), three attempts: fails, fails, then succeeds. The value is returned after 3 invocations, with waits of 100 and 200 ms. |

## Left out

- Awaiting: each `execute` call is one atomic step with a given outcome. Interleaving of concurrent calls across the `await` (CircuitBraker.ts:12, healthCheck.ts:12) is not modelled.
- Overlapping calls: with overlapping calls, `Consistent` and `Valid` can fail. Two overlapping calls started at a count of 4 that both fail leave OPEN with a count of 6. A success that settles after the breaker opened leaves OPEN with a count of 0. So under interleaving, OPEN can carry any count. Two facts still hold there: CLOSED implies fewer than threshold failures, because every increment is tested at once, and nothing leaves OPEN except `reset()`. The model does not prove these under interleaving.
- Promises: `Throws` stands for any failure of `fn` that `execute` catches, and `Returns` for a value it awaits. In `retryWithBackoff`, `fn()` is returned without `await`, so only a synchronous throw reaches the `catch`. There `Returns` stands for whatever `fn` returned, which may be a promise that later rejects; that rejection is not modelled.
- Timers and logging: the `setTimeout` inside the returned promise is the result value `Timer(ms)`. The `console.log` at retry.ts:13 is left out, because it is output only.
- Numbers: `maxRetries` is a JavaScript number. A fractional or NaN value is not modelled; the model takes `int`. `BackoffDelay` is exact integer arithmetic. It equals the double expression at retry.ts:12 only for attempt <= 1017. At attempts 1018 to 1023, `Math.pow(2, attempt)` is still exact, but `* 100` overflows to Infinity. The helper as written only evaluates the expression at attempt 0. `Timer(ms)` is the delay asked of `setTimeout`, not the delay waited: Node fires any delay above 2147483647 ms after 1 ms, which first happens at attempt 25.
- Not in the code, so not modelled: HALF_OPEN, a cooldown deadline, fatal versus retryable errors, a configurable threshold or delay cap, and cancellation.
- `CircuitBrakers.CircuitBraker.Execute`, `HealthChecks.HealthCheck.Execute` and `HealthChecks.HealthCheck.Reset` require `Valid()`, the object invariant that the constructors establish and every method keeps. The source states no such precondition. When calls do not overlap (see Awaiting), every object the source can create satisfies it.
- The threshold is a field the source never assigns after creation, so it is modelled as a `const` field.
- stream.ts, events.ts, workerThreads.ts, asyncHooks.ts, caching.ts, loader.mjs, Error.ts and Api.ts are not part of this model. They are I/O, logging, runtime hooks, a Redis client, dynamic import, HTTP response writing and plain data classes.

## Findings

| source | as written | input that shows it | evidently intended | confidence | as-written member | corrected member |
|---|---|---|---|---|---|---|
| retry.ts:7-14 | `return fn()` leaves the loop on the first normal return. After a throw before the last attempt, the `catch` returns a bare timer promise, so `fn` is never retried. | `maxRetries` = 3 (the default). `fn` throws on its first invocation and would return 7 on its second. | Wait 100 ms, invoke `fn` again and return 7. This follows the helper's name, its "Exponential backoff" and "Rethrow the last error after max retries" comments, and its attempt loop. | high; not executed | `Retry.DefaultRetryDoesNotRetry` (about `Retry.RetryWithBackoff`) | `Retry.RetryWithBackoffIntended`, with `Retry.DefaultRetryRetries` and `Retry.SucceedsOnLastAttempt` |
