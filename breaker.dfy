/** The failure-counting state machine that both `CircuitBraker` and
    `HealthCheck` implement: a consecutive-failure counter and a state that
    latches OPEN once the counter reaches the threshold. This module holds the
    pure specification of one `execute` call (Step), of a sequence of calls
    (Run), and what is proved about them; the classes are proved against Step. */
module Breaker {
  import opened Outcomes

  datatype State = Closed | Open

  /** The mutable part of a breaker: the `state` and `failures` fields. */
  datatype Status = Status(state: State, failures: nat)

  /** The effect of one `execute` call: the new fields, what the call settles
      with, and how many times it invoked `fn`. */
  datatype Transition<+V, +E> = Transition(status: Status, result: Result<V, E>, calls: nat)

  /** The threshold both classes are created with. */
  const DefaultThreshold: nat := 5

  /** The fields of a freshly created breaker, and of a health check after `reset()`. */
  const Initial: Status := Status(Closed, 0)

  /** The invariant every reachable breaker keeps when calls do not overlap
      (each `execute` settles before the next starts): while CLOSED fewer than
      `threshold` consecutive failures have been seen, and it is OPEN exactly
      when the failure that reached the threshold has happened. */
  predicate Consistent(threshold: nat, s: Status) {
    match s.state
    case Closed => s.failures < threshold
    case Open => s.failures == threshold
  }

  /** One `execute(fn)` call, given the outcome `fn` would have. An OPEN breaker
      rejects the call with its own message and does not invoke `fn`. */
  function Step<V, E>(rejection: string, threshold: nat, s: Status, outcome: Outcome<V, E>): (t: Transition<V, E>)
    // While OPEN: rejected, `fn` is never invoked, nothing changes.
    ensures s.state == Open ==> t == Transition(s, Err(ErrorMessage(rejection)), 0)
    // While CLOSED: `fn` is invoked exactly once.
    ensures s.state == Closed ==> t.calls == 1
    // A success clears the counter and passes `fn`'s value through; the state stays CLOSED.
    ensures s.state == Closed && outcome.Returns? ==>
              t.status == Status(Closed, 0) && t.result == Ok(outcome.value)
    // A failure adds exactly one to the counter and rethrows the original error.
    ensures s.state == Closed && outcome.Throws? ==>
              t.status.failures == s.failures + 1 && t.result == Err(Rethrown(outcome.error))
    // OPEN afterwards exactly when it already was, or a failure brought the counter to the threshold.
    ensures t.status.state == Open <==>
              s.state == Open || (outcome.Throws? && s.failures + 1 >= threshold)
    ensures Consistent(threshold, s) ==> Consistent(threshold, t.status)
  {
    match s.state
    case Open => Transition(s, Err(ErrorMessage(rejection)), 0)
    case Closed =>
      match outcome
      case Returns(v) => Transition(Status(Closed, 0), Ok(v), 1)
      case Throws(e) =>
        var failures := s.failures + 1;
        Transition(Status(if failures >= threshold then Open else Closed, failures), Err(Rethrown(e)), 1)
  }

  /** The fields after `execute` has been called once per outcome, in order. */
  function Run<V, E>(rejection: string, threshold: nat, s: Status, outcomes: seq<Outcome<V, E>>): (r: Status)
    // OPEN is absorbing: no sequence of calls leaves it, nor changes the counter.
    ensures s.state == Open ==> r == s
    ensures Consistent(threshold, s) ==> Consistent(threshold, r)
    decreases |outcomes|
  {
    if outcomes == [] then s
    else
      var before := Run(rejection, threshold, s, outcomes[..|outcomes| - 1]);
      Step(rejection, threshold, before, outcomes[|outcomes| - 1]).status
  }

  /** `k` failures in a row; a convenience for stating the lemmas below. */
  function Failures<V, E>(e: E, k: nat): seq<Outcome<V, E>>
  {
    seq(k, _ => Throws(e))
  }

  /** The number of failures at the end of `os` that no success follows. */
  function TrailingThrows<V, E>(os: seq<Outcome<V, E>>): (n: nat)
    ensures n <= |os|
    decreases |os|
  {
    if os == [] || os[|os| - 1].Returns? then 0 else TrailingThrows(os[..|os| - 1]) + 1
  }

  predicate AllThrow<V, E>(os: seq<Outcome<V, E>>) {
    forall j :: 0 <= j < |os| ==> os[j].Throws?
  }

  /** The `n` outcomes of `os` from index `i` on are all failures. */
  predicate StreakAt<V, E>(os: seq<Outcome<V, E>>, i: nat, n: nat) {
    i + n <= |os| && AllThrow(os[i..i + n])
  }

  /** `os` holds at least `n` consecutive failures somewhere. */
  ghost predicate HasStreak<V, E>(os: seq<Outcome<V, E>>, n: nat) {
    exists i: nat :: StreakAt(os, i, n)
  }

  /** Starting from CLOSED with `f` failures already counted, a run of `k`
      further failures counts each one and opens the breaker exactly when the
      counter reaches the threshold. */
  lemma {:induction false} ConsecutiveFailures<V, E>(rejection: string, threshold: nat, f: nat, e: E, k: nat)
    requires f < threshold
    ensures Run(rejection, threshold, Status(Closed, f), Failures<V, E>(e, k)) ==
            if f + k < threshold then Status(Closed, f + k) else Status(Open, threshold)
  {
    if k > 0 {
      assert Failures<V, E>(e, k)[..k - 1] == Failures<V, E>(e, k - 1);
      ConsecutiveFailures<V, E>(rejection, threshold, f, e, k - 1);
    }
  }

  /** A new breaker, with the default threshold: four failures in a row leave
      it CLOSED and the fifth opens it. */
  lemma FifthFailureOpens<V, E>(rejection: string, e: E)
    ensures Run(rejection, DefaultThreshold, Initial, Failures<V, E>(e, 4)) == Status(Closed, 4)
    ensures Run(rejection, DefaultThreshold, Initial, Failures<V, E>(e, 5)) == Status(Open, 5)
  {
    ConsecutiveFailures<V, E>(rejection, DefaultThreshold, 0, e, 4);
    ConsecutiveFailures<V, E>(rejection, DefaultThreshold, 0, e, 5);
  }

  /** Appending one outcome keeps "all failures" exactly when it is a failure. */
  lemma AllThrowSnoc<V, E>(q: seq<Outcome<V, E>>, o: Outcome<V, E>)
    ensures AllThrow(q + [o]) <==> AllThrow(q) && o.Throws?
  {
    var qo := q + [o];
    if AllThrow(qo) {
      assert qo[|q|] == o;
      forall j | 0 <= j < |q| ensures q[j].Throws? {
        assert qo[j] == q[j];
      }
    }
  }

  lemma {:induction false} TrailingThrowsSuffix<V, E>(os: seq<Outcome<V, E>>, n: nat)
    requires n <= |os|
    ensures TrailingThrows(os) >= n <==> AllThrow(os[|os| - n..])
    decreases |os|
  {
    if n > 0 {
      var p := os[..|os| - 1];
      assert os[|os| - n..] == p[|p| - (n - 1)..] + [os[|os| - 1]];
      AllThrowSnoc(p[|p| - (n - 1)..], os[|os| - 1]);
      TrailingThrowsSuffix(p, n - 1);
    }
  }

  /** A streak inside `p` is still a streak once an outcome is appended. */
  lemma StreakInPrefix<V, E>(p: seq<Outcome<V, E>>, o: Outcome<V, E>, n: nat)
    requires HasStreak(p, n)
    ensures HasStreak(p + [o], n)
  {
    var i: nat :| StreakAt(p, i, n);
    assert (p + [o])[i..i + n] == p[i..i + n];
    assert StreakAt(p + [o], i, n);
  }

  /** A streak of `p + [o]` that ends within `p` is a streak of `p`. */
  lemma StreakWithinPrefix<V, E>(p: seq<Outcome<V, E>>, o: Outcome<V, E>, i: nat, n: nat)
    ensures StreakAt(p + [o], i, n) && i + n <= |p| ==> StreakAt(p, i, n)
  {
    if i + n <= |p| {
      assert p[i..i + n] == (p + [o])[i..i + n];
    }
  }

  /** When `p` has no streak of `n` failures, a streak in `p + [o]` is a run
      of `n` failures at its end. */
  lemma StreakEndsAtLast<V, E>(p: seq<Outcome<V, E>>, o: Outcome<V, E>, n: nat)
    requires !HasStreak(p, n) && HasStreak(p + [o], n)
    ensures n <= |p| + 1 && AllThrow((p + [o])[|p| + 1 - n..])
  {
    var os := p + [o];
    var i: nat :| StreakAt(os, i, n);
    StreakWithinPrefix(p, o, i, n);
    assert i + n == |os|;
    assert os[i..i + n] == os[|os| - n..];
  }

  /** `n` failures at the end of `os` are a streak of `os`. */
  lemma TrailingIsStreak<V, E>(os: seq<Outcome<V, E>>, n: nat)
    requires TrailingThrows(os) >= n
    ensures HasStreak(os, n)
  {
    TrailingThrowsSuffix(os, n);
    assert os[|os| - n..] == os[|os| - n..|os| - n + n];
    assert StreakAt(os, |os| - n, n);
  }

  /** When `p` has no streak of `n` failures, `p + [o]` has one exactly when it
      ends in `n` failures. */
  lemma StreakAtEnd<V, E>(p: seq<Outcome<V, E>>, o: Outcome<V, E>, n: nat)
    requires !HasStreak(p, n)
    ensures HasStreak(p + [o], n) <==> TrailingThrows(p + [o]) >= n
  {
    if HasStreak(p + [o], n) {
      StreakEndsAtLast(p, o, n);
      TrailingThrowsSuffix(p + [o], n);
    }
    if TrailingThrows(p + [o]) >= n {
      TrailingIsStreak(p + [o], n);
    }
  }

  /** The counter counts consecutive failures: a breaker created fresh (or a
      health check just reset) that has seen `os` is OPEN exactly when `os`
      contains `threshold` failures in a row, and otherwise it is CLOSED and
      its counter is the number of failures since the last success. */
  lemma {:induction false} RunCountsConsecutiveFailures<V, E>(rejection: string, threshold: nat, os: seq<Outcome<V, E>>)
    requires threshold >= 1
    ensures Run(rejection, threshold, Initial, os) ==
            if HasStreak(os, threshold) then Status(Open, threshold)
            else Status(Closed, TrailingThrows(os))
    decreases |os|
  {
    if os == [] {
      return;
    }
    var p, o := os[..|os| - 1], os[|os| - 1];
    assert os == p + [o];
    RunCountsConsecutiveFailures(rejection, threshold, p);
    var before := Run(rejection, threshold, Initial, p);
    assert Run(rejection, threshold, Initial, os) == Step(rejection, threshold, before, o).status;
    if HasStreak(p, threshold) {
      StreakInPrefix(p, o, threshold);
    } else {
      StreakAtEnd(p, o, threshold);
      assert before == Status(Closed, TrailingThrows(p));
      assert TrailingThrows(os) == if o.Throws? then TrailingThrows(p) + 1 else 0;
    }
  }
}
