/**
 * retryFn (index.js:138-154), the backoff wrapper the POST path puts
 * around insertCredito and insertDebito with a starting counter of 3.
 * The waiting itself is left out: a delay is the number of milliseconds
 * the wrapper would sleep.
 */
module Retry {
  import opened ErrorStatus

  const MaxRetries: nat := 10
  const RetryTimeoutMs: nat := 50
  /** The counter value index.js:40-41 start the wrapper with. */
  const InitialRetry: nat := 3

  /** What the catch block does with a rejection. */
  datatype Step = Propagate | RetryAfter(delayMs: nat)

  /** The codes [404, 422].includes(error.code) matches: the numbers, not their texts. */
  predicate IsTerminal(e: ErrorCode)
  {
    e == NumCode(404) || e == NumCode(422)
  }

  function Decide(e: ErrorCode, retry: nat): (d: Step)
    ensures d.RetryAfter? <==> !IsTerminal(e) && retry <= MaxRetries
    ensures d.RetryAfter? ==> d.delayMs == RetryTimeoutMs * (retry + 1)
  {
    if IsTerminal(e) then Propagate
    else if retry > MaxRetries then Propagate
    else RetryAfter(RetryTimeoutMs * (retry + 1))
  }

  /** Each further retry waits longer than the one before. */
  lemma BackoffIncreases(e: ErrorCode, r1: nat, r2: nat)
    requires r1 < r2 <= MaxRetries && !IsTerminal(e)
    ensures Decide(e, r1).delayMs < Decide(e, r2).delayMs
  {
  }

  /** How one call of the wrapped function settles. */
  datatype Attempt<T> = Resolved(value: T) | Rejected(code: ErrorCode)

  /** How the wrapper settles, and the delays it slept before each retry. */
  datatype Run<T> = Run(result: Attempt<T>, delays: seq<nat>)

  /**
   * The wrapper run from counter value retry, where outcome(k) is how the
   * call made with counter value k settles.
   */
  function RetryFn<T>(outcome: nat -> Attempt<T>, retry: nat): Run<T>
    decreases if retry <= MaxRetries then MaxRetries + 1 - retry else 0
  {
    match outcome(retry)
    case Resolved(v) => Run(Resolved(v), [])
    case Rejected(e) =>
      match Decide(e, retry)
      case Propagate => Run(Rejected(e), [])
      case RetryAfter(ms) =>
        var rest := RetryFn(outcome, retry + 1);
        Run(rest.result, [ms] + rest.delays)
  }

  /** The wrapper settles as the last call it made: the one after all its retries. */
  lemma {:induction false} RetryFnSettlesAsLastCall<T>(outcome: nat -> Attempt<T>, retry: nat)
    ensures var run := RetryFn(outcome, retry);
            run.result == outcome(retry + |run.delays|)
    decreases if retry <= MaxRetries then MaxRetries + 1 - retry else 0
  {
    if outcome(retry).Rejected? && Decide(outcome(retry).code, retry).RetryAfter? {
      RetryFnSettlesAsLastCall(outcome, retry + 1);
    }
  }

  /** At most MaxRetries + 1 - retry retries happen; none once the counter is past MaxRetries. */
  lemma {:induction false} RetryFnBounded<T>(outcome: nat -> Attempt<T>, retry: nat)
    ensures |RetryFn(outcome, retry).delays| <= if retry <= MaxRetries then MaxRetries + 1 - retry else 0
    decreases if retry <= MaxRetries then MaxRetries + 1 - retry else 0
  {
    if outcome(retry).Rejected? && Decide(outcome(retry).code, retry).RetryAfter? {
      RetryFnBounded(outcome, retry + 1);
    }
  }

  /** The i-th retry from counter value retry waits 50 * (retry + i + 1) milliseconds. */
  lemma {:induction false} RetryFnDelays<T>(outcome: nat -> Attempt<T>, retry: nat)
    ensures forall i :: 0 <= i < |RetryFn(outcome, retry).delays| ==>
              RetryFn(outcome, retry).delays[i] == RetryTimeoutMs * (retry + i + 1)
    decreases if retry <= MaxRetries then MaxRetries + 1 - retry else 0
  {
    if outcome(retry).Rejected? && Decide(outcome(retry).code, retry).RetryAfter? {
      RetryFnDelays(outcome, retry + 1);
      var rest := RetryFn(outcome, retry + 1).delays;
      var d := RetryFn(outcome, retry).delays;
      assert d == [RetryTimeoutMs * (retry + 1)] + rest;
      forall i | 0 < i < |d|
        ensures d[i] == RetryTimeoutMs * (retry + i + 1)
      {
        assert d[i] == rest[i - 1];
        assert rest[i - 1] == RetryTimeoutMs * ((retry + 1) + (i - 1) + 1);
      }
    }
  }

  /** A failure is given up on only when it is terminal or the counter has run past MaxRetries. */
  lemma {:induction false} RetryFnGivesUp<T>(outcome: nat -> Attempt<T>, retry: nat)
    ensures var run := RetryFn(outcome, retry);
            run.result.Rejected? ==> IsTerminal(run.result.code) || retry + |run.delays| > MaxRetries
    decreases if retry <= MaxRetries then MaxRetries + 1 - retry else 0
  {
    if outcome(retry).Rejected? && Decide(outcome(retry).code, retry).RetryAfter? {
      RetryFnGivesUp(outcome, retry + 1);
    }
  }

  /** A 404 or 422 is never retried. */
  lemma TerminalNotRetried<T>(outcome: nat -> Attempt<T>, retry: nat)
    requires outcome(retry).Rejected? && IsTerminal(outcome(retry).code)
    ensures RetryFn(outcome, retry) == Run(outcome(retry), [])
  {
  }

  /**
   * Started at 3, the wrapper makes at most 8 retries, with delays that
   * strictly increase from 200 ms.
   */
  lemma FromInitialRetry<T>(outcome: nat -> Attempt<T>)
    ensures var d := RetryFn(outcome, InitialRetry).delays;
            |d| <= 8 && (|d| > 0 ==> d[0] == 200)
            && forall i, j :: 0 <= i < j < |d| ==> d[i] < d[j]
  {
    RetryFnBounded(outcome, InitialRetry);
    RetryFnDelays(outcome, InitialRetry);
  }
}
