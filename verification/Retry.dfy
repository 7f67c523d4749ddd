/**
  Retrying transient failures with full-jitter exponential backoff, on its own and over a circuit breaker.
  Durations are in nanoseconds. The retried operation is a function on a caller-chosen state, so that it may
  remember things from one attempt to the next.
*/
module Retry {
  import opened Core
  import CB = CircuitBreaker
  import GuardedCalls

  datatype ErrorKind =
    | Database
    | Authentication
    | Configuration
    | Tls
    | Io
    | InvalidInput
    | CircuitBreakerOpen
    | CircuitBreakerFailed
    | Internal

  datatype Failure<E> = Failure(kind: ErrorKind, source: E)

  predicate IsTransient(kind: ErrorKind) {
    kind.Io? || kind.Database? || kind.CircuitBreakerFailed?
  }

  // ----- Backoff -----

  /** `Duration::MAX`. */
  const MAX_DURATION: nat := 0xFFFF_FFFF_FFFF_FFFF * 1_000_000_000 + 999_999_999

  type Duration = d: nat | d <= MAX_DURATION

  datatype RetryPolicy = RetryPolicy(maxAttempts: u32, baseDelay: Duration, maxDelay: Duration)

  /** `d * 2^e`. */
  function TimesPow2(d: nat, e: nat): nat {
    if e == 0 then d else 2 * TimesPow2(d, e - 1)
  }

  function Exponent(attempt: nat): nat {
    Min(if attempt == 0 then 0 else attempt - 1, 31)
  }

  /** The product saturates at `Duration::MAX` before the maximum delay applies. */
  function BackoffCap(policy: RetryPolicy, attempt: nat): Duration {
    Min(Min(TimesPow2(policy.baseDelay, Exponent(attempt)), MAX_DURATION), policy.maxDelay)
  }

  /** The share of a cap that the wall clock selects at some attempt, rounding included. */
  type Jitter = (nat, nat) -> nat

  ghost predicate IsShare(jitter: Jitter) {
    forall attempt, cap :: jitter(attempt, cap) <= cap
  }

  /** The delay before the attempt after `attempt`. */
  function Backoff(policy: RetryPolicy, attempt: nat, jitter: Jitter): nat {
    jitter(attempt, BackoffCap(policy, attempt))
  }

  lemma {:induction false} TimesPow2Monotone(d: nat, a: nat, b: nat)
    requires a <= b
    ensures TimesPow2(d, a) <= TimesPow2(d, b)
  {
    if a < b {
      TimesPow2Monotone(d, a, b - 1);
    }
  }

  lemma {:induction false} TimesPow2Positive(d: nat, e: nat)
    ensures TimesPow2(d, e) >= d
    ensures d == 0 ==> TimesPow2(d, e) == 0
  {
    if e > 0 {
      TimesPow2Positive(d, e - 1);
    }
  }

  /** Each delay is at most its cap, and caps never shrink from one attempt to a later one nor exceed `max_delay`. */
  lemma {:induction false} BackoffIsCapped(policy: RetryPolicy, a: nat, b: nat, jitter: Jitter)
    requires IsShare(jitter) && a <= b
    ensures Backoff(policy, a, jitter) <= BackoffCap(policy, a) <= BackoffCap(policy, b) <= policy.maxDelay
  {
    TimesPow2Monotone(policy.baseDelay, Exponent(a), Exponent(b));
  }

  lemma EightDoublings(d: nat, e: nat)
    ensures TimesPow2(d, e + 8) == 0x100 * TimesPow2(d, e)
  {
    assert TimesPow2(d, e + 4) == 0x10 * TimesPow2(d, e) by {
      assert TimesPow2(d, e + 2) == 4 * TimesPow2(d, e);
    }
    assert TimesPow2(d, e + 6) == 4 * TimesPow2(d, e + 4);
  }

  lemma ThirtyOneDoublings(d: nat)
    ensures TimesPow2(d, 31) == d * 0x8000_0000
  {
    EightDoublings(d, 0);
    EightDoublings(d, 8);
    EightDoublings(d, 16);
    EightDoublings(d, 24);
    assert TimesPow2(d, 32) == 2 * TimesPow2(d, 31);
  }

  /**
    The documented cap, `min(max_delay, base_delay * 2^(attempt-1))`, is the one computed exactly until the
    exponent saturates: up to attempt 32, or later when the cap no longer depends on it.
  */
  lemma {:induction false} CapAsDocumentedIff(policy: RetryPolicy, attempt: nat)
    requires attempt >= 1
    ensures BackoffCap(policy, attempt) == Min(policy.maxDelay, TimesPow2(policy.baseDelay, attempt - 1))
       <==> attempt <= 32 || policy.baseDelay == 0 || policy.maxDelay <= policy.baseDelay * 0x8000_0000
  {
    var base := policy.baseDelay;
    ThirtyOneDoublings(base);
    if attempt > 32 {
      TimesPow2Monotone(base, 32, attempt - 1);
      TimesPow2Positive(base, 31);
      TimesPow2Positive(base, attempt - 1);
    }
  }

  function Sum(s: seq<nat>): nat {
    if s == [] then 0 else Sum(Front(s)) + Last(s)
  }

  lemma Distribute(k: nat, m: nat)
    ensures (k + 1) * m == k * m + m
  {
  }

  lemma {:induction false} SumBelow(s: seq<nat>, m: nat)
    requires forall i :: 0 <= i < |s| ==> s[i] <= m
    ensures Sum(s) <= |s| * m
  {
    if s != [] {
      SumBelow(Front(s), m);
      Distribute(|s| - 1, m);
    }
  }

  lemma {:induction false} SumGeometric(s: seq<nat>, d: nat)
    requires forall i :: 0 <= i < |s| ==> s[i] <= TimesPow2(d, i)
    ensures Sum(s) + d <= TimesPow2(d, |s|)
  {
    if s != [] {
      SumGeometric(Front(s), d);
    }
  }

  /** `k` retries never ask for more sleep than `min(k * max_delay, base_delay * (2^k - 1))` in total. */
  lemma {:induction false} TotalSleepBounded(policy: RetryPolicy, delays: seq<nat>)
    requires forall i :: 0 <= i < |delays| ==> delays[i] <= BackoffCap(policy, i + 1)
    ensures Sum(delays) <= |delays| * policy.maxDelay
    ensures Sum(delays) <= TimesPow2(policy.baseDelay, |delays|) - policy.baseDelay
  {
    SumBelow(delays, policy.maxDelay);
    forall i | 0 <= i < |delays| ensures delays[i] <= TimesPow2(policy.baseDelay, i) {
      TimesPow2Monotone(policy.baseDelay, Exponent(i + 1), i);
    }
    SumGeometric(delays, policy.baseDelay);
  }

  /** The delays that a jitter taking every cap whole asks for, before the retries after attempts 1 to `k`. */
  function FullDelays(policy: RetryPolicy, k: nat): seq<nat> {
    seq(k, i requires 0 <= i < k => BackoffCap(policy, i + 1))
  }

  lemma {:induction false} SumsTight(s: seq<nat>, t: seq<nat>)
    requires |s| == |t| && forall i :: 0 <= i < |s| ==> s[i] <= t[i]
    ensures Sum(s) <= Sum(t) && (Sum(s) == Sum(t) <==> s == t)
  {
    if s != [] {
      SumsTight(Front(s), Front(t));
      assert s == Front(s) + [Last(s)] && t == Front(t) + [Last(t)];
    }
  }

  function Constant(m: nat, k: nat): seq<nat> {
    seq(k, _ => m)
  }

  function Doubling(d: nat, k: nat): seq<nat> {
    seq(k, i requires 0 <= i < k => TimesPow2(d, i))
  }

  lemma {:induction false} ConstantSum(m: nat, k: nat)
    ensures Sum(Constant(m, k)) == k * m
  {
    if k > 0 {
      ConstantSum(m, k - 1);
      assert Front(Constant(m, k)) == Constant(m, k - 1);
      Distribute(k - 1, m);
    }
  }

  lemma {:induction false} DoublingSum(d: nat, k: nat)
    ensures Sum(Doubling(d, k)) + d == TimesPow2(d, k)
  {
    if k > 0 {
      DoublingSum(d, k - 1);
      assert Front(Doubling(d, k)) == Doubling(d, k - 1);
    }
  }

  lemma LastCapUncut(policy: RetryPolicy, attempt: nat)
    requires attempt >= 1
    ensures BackoffCap(policy, attempt) == TimesPow2(policy.baseDelay, attempt - 1)
       <==> policy.baseDelay == 0 || (attempt <= 32 && TimesPow2(policy.baseDelay, attempt - 1) <= policy.maxDelay)
  {
    var base := policy.baseDelay;
    TimesPow2Positive(base, 31);
    TimesPow2Positive(base, attempt - 1);
    if attempt > 32 {
      TimesPow2Monotone(base, 32, attempt - 1);
    }
  }

  lemma CapWithinBounds(policy: RetryPolicy, i: nat)
    ensures BackoffCap(policy, i + 1) <= policy.maxDelay && BackoffCap(policy, i + 1) <= TimesPow2(policy.baseDelay, i)
    ensures policy.baseDelay >= policy.maxDelay ==> BackoffCap(policy, i + 1) == policy.maxDelay
  {
    TimesPow2Monotone(policy.baseDelay, Exponent(i + 1), i);
    TimesPow2Positive(policy.baseDelay, Exponent(i + 1));
  }

  /**
    With a jitter that takes every cap whole, `k` retries ask for `k * max_delay` exactly if the base delay is at
    least the maximum.
  */
  lemma FullDelaysReachMaximum(policy: RetryPolicy, k: nat)
    requires k >= 1
    ensures Sum(FullDelays(policy, k)) == k * policy.maxDelay <==> policy.baseDelay >= policy.maxDelay
  {
    var full, bound := FullDelays(policy, k), Constant(policy.maxDelay, k);
    ConstantSum(policy.maxDelay, k);
    forall i: nat | i < k
      ensures full[i] <= bound[i] && (policy.baseDelay >= policy.maxDelay ==> full[i] == bound[i])
    {
      CapWithinBounds(policy, i);
    }
    SumsTight(full, bound);
    if policy.baseDelay < policy.maxDelay {
      assert full[0] == policy.baseDelay != bound[0];
    }
  }

  /**
    And they ask for `base_delay * (2^k - 1)` exactly if no cap up to the last is cut off by the maximum or by
    the exponent that stops at 31.
  */
  lemma FullDelaysDouble(policy: RetryPolicy, k: nat)
    requires k >= 1
    ensures Sum(FullDelays(policy, k)) == TimesPow2(policy.baseDelay, k) - policy.baseDelay
       <==> policy.baseDelay == 0 || (k <= 32 && TimesPow2(policy.baseDelay, k - 1) <= policy.maxDelay)
  {
    var full, bound := FullDelays(policy, k), Doubling(policy.baseDelay, k);
    DoublingSum(policy.baseDelay, k);
    forall i: nat | i < k
      ensures full[i] <= bound[i]
      ensures policy.baseDelay == 0 || (k <= 32 && bound[k - 1] <= policy.maxDelay) ==> full[i] == bound[i]
    {
      CapWithinBounds(policy, i);
      TimesPow2Monotone(policy.baseDelay, i, k - 1);
      LastCapUncut(policy, i + 1);
    }
    SumsTight(full, bound);
    LastCapUncut(policy, k);
    assert full[k - 1] == BackoffCap(policy, k) && bound[k - 1] == TimesPow2(policy.baseDelay, k - 1);
  }

  /** The jitter that picks given delays, as far as they are shares. */
  function Picking(delays: seq<nat>): Jitter {
    (attempt: nat, cap: nat) =>
      if 1 <= attempt <= |delays| && delays[attempt - 1] <= cap then delays[attempt - 1] else 0
  }

  /**
    Nothing else is promised of the delays: a list of them arises from some jitter if and only if the delay
    after attempt `i + 1` is at most `min(max_delay, base_delay * 2^min(i, 31))`.
  */
  lemma DelaysAriseIff(policy: RetryPolicy, delays: seq<nat>)
    ensures (exists jitter :: IsShare(jitter)
               && forall i: nat :: i < |delays| ==> delays[i] == Backoff(policy, i + 1, jitter))
       <==> forall i: nat :: i < |delays| ==>
              delays[i] <= Min(policy.maxDelay, TimesPow2(policy.baseDelay, Min(i, 31)))
  {
    if forall i: nat :: i < |delays| ==> delays[i] <= Min(policy.maxDelay, TimesPow2(policy.baseDelay, Min(i, 31))) {
      var jitter := Picking(delays);
      assert IsShare(jitter);
      assert forall i: nat :: i < |delays| ==> delays[i] == Backoff(policy, i + 1, jitter);
    }
  }

  // ----- The retry loop -----

  /** Whether the loop returns the result of attempt number `n`. */
  predicate Stops<T, E>(maxAttempts: nat, r: Result<T, Failure<E>>, n: nat) {
    r.Ok? || n >= maxAttempts || !IsTransient(r.error.kind)
  }

  /** The state of the operation when the loop returns, its result, and how many times it was called. */
  function Retry<S, T, E>(maxAttempts: nat, op: S -> (S, Result<T, Failure<E>>), s: S, attempt: nat)
    : (S, Result<T, Failure<E>>, nat)
    decreases maxAttempts - attempt
  {
    var (s', r) := op(s);
    if Stops(maxAttempts, r, attempt) then (s', r, 1)
    else
      var (end, last, calls) := Retry(maxAttempts, op, s', attempt + 1);
      (end, last, calls + 1)
  }

  method RetryTransient<S, T, E>(policy: RetryPolicy, op: S -> (S, Result<T, Failure<E>>), start: S,
                                 jitter: Jitter)
    returns (s: S, r: Result<T, Failure<E>>, calls: nat, delays: seq<nat>)
    requires IsShare(jitter)
    ensures (s, r, calls) == Retry(policy.maxAttempts, op, start, 1)
    ensures |delays| == calls - 1
    ensures forall i: nat :: i < |delays| ==>
              delays[i] == jitter(i + 1, Min(policy.maxDelay, TimesPow2(policy.baseDelay, Min(i, 31))))
    ensures Sum(delays) <= |delays| * policy.maxDelay
    ensures Sum(delays) <= TimesPow2(policy.baseDelay, |delays|) - policy.baseDelay
  {
    var attempt := 1;
    s, delays := start, [];
    while true
      invariant 1 <= attempt <= AtLeastOne(policy.maxAttempts)
      invariant |delays| == attempt - 1
      invariant forall i :: 0 <= i < |delays| ==> delays[i] == Backoff(policy, i + 1, jitter)
      invariant var rest := Retry(policy.maxAttempts, op, s, attempt);
                Retry(policy.maxAttempts, op, start, 1) == (rest.0, rest.1, rest.2 + attempt - 1)
      decreases AtLeastOne(policy.maxAttempts) - attempt
    {
      var (next, outcome) := op(s);
      if outcome.Ok? || attempt >= policy.maxAttempts || !IsTransient(outcome.error.kind) {
        s, r, calls := next, outcome, attempt;
        TotalSleepBounded(policy, delays);
        return;
      }
      delays := delays + [Backoff(policy, attempt, jitter)];
      s, attempt := next, attempt + 1;
    }
  }

  function StateAt<S, T, E>(op: S -> (S, Result<T, Failure<E>>), s: S, n: nat): S {
    if n == 0 then s else op(StateAt(op, s, n - 1)).0
  }

  /** What the operation returns the `n`-th time it is called. */
  function ResultAt<S, T, E>(op: S -> (S, Result<T, Failure<E>>), s: S, n: nat): Result<T, Failure<E>>
    requires n >= 1
  {
    op(StateAt(op, s, n - 1)).1
  }

  lemma {:induction false} RetryFrom<S, T, E>(maxAttempts: nat, op: S -> (S, Result<T, Failure<E>>), s: S, attempt: nat)
    requires 1 <= attempt <= AtLeastOne(maxAttempts)
    ensures var (end, r, calls) := Retry(maxAttempts, op, StateAt(op, s, attempt - 1), attempt);
            var n := attempt - 1 + calls;
            && attempt <= n <= AtLeastOne(maxAttempts)
            && end == StateAt(op, s, n) && r == ResultAt(op, s, n) && Stops(maxAttempts, r, n)
            && forall k :: attempt <= k < n ==> !Stops(maxAttempts, ResultAt(op, s, k), k)
    decreases maxAttempts - attempt
  {
    if !Stops(maxAttempts, ResultAt(op, s, attempt), attempt) {
      RetryFrom(maxAttempts, op, s, attempt + 1);
    }
  }

  /** The kinds of failure that are worth another attempt. */
  const TRANSIENT: set<ErrorKind> := {Io, Database, CircuitBreakerFailed}

  /**
    The loop calls the operation up to the first success, the first non-transient error or attempt
    `max(1, max_attempts)`, whichever comes first, and returns what that call returned.
  */
  lemma RetryStopsAtFirst<S, T, E>(maxAttempts: nat, op: S -> (S, Result<T, Failure<E>>), s: S)
    ensures var (end, r, calls) := Retry(maxAttempts, op, s, 1);
            && 1 <= calls <= AtLeastOne(maxAttempts)
            && end == StateAt(op, s, calls) && r == ResultAt(op, s, calls)
            && (r.Ok? || r.error.kind !in TRANSIENT || calls == AtLeastOne(maxAttempts))
            && forall k :: 1 <= k < calls ==> ResultAt(op, s, k).Err? && ResultAt(op, s, k).error.kind in TRANSIENT
  {
    RetryFrom(maxAttempts, op, s, 1);
  }

  // ----- Retrying a guarded call -----

  function Bridge<T, E>(r: Result<T, GuardedCalls.CallError<E>>): Result<T, Failure<GuardedCalls.CallError<E>>> {
    match r
    case Ok(v) => Ok(v)
    case Err(e) => Err(Failure(if e.CircuitOpen? then CircuitBreakerOpen else CircuitBreakerFailed, e))
  }

  /** One attempt: when it is made, when it ends, what the call would give, and whether its deadline comes first. */
  datatype Attempt<T, E> = Attempt(start: nat, finish: nat, timesOut: bool, result: Result<T, E>)

  /** A sole client: the breaker it uses, attempts made so far, and how many of them ran the operation. */
  datatype Client = Client(inner: CB.Inner, attempts: nat, runs: nat)

  function GuardedAttempt<T, E>(cfg: CB.TargetConfig, target: string, plan: nat -> Attempt<T, E>, c: Client)
    : (Client, Result<T, Failure<GuardedCalls.CallError<E>>>)
  {
    var a := plan(c.attempts);
    var f := if a.timesOut && cfg.callTimeout.Some? then GuardedCalls.DeadlineElapsed
             else GuardedCalls.Finished(a.result);
    var (inner, r, ran) := GuardedCalls.Guarded(cfg, c.inner, target, f, _ => true, a.start, a.finish);
    (Client(inner, c.attempts + 1, c.runs + (if ran then 1 else 0)), Bridge(r))
  }

  function GuardedOp<T, E>(cfg: CB.TargetConfig, target: string, plan: nat -> Attempt<T, E>)
    : Client -> (Client, Result<T, Failure<GuardedCalls.CallError<E>>>)
  {
    c => GuardedAttempt(cfg, target, plan, c)
  }

  /** What the caller of an attempt that runs is told. */
  function Told<T, E>(cfg: CB.TargetConfig, a: Attempt<T, E>): Result<T, Failure<GuardedCalls.CallError<E>>> {
    if a.timesOut && cfg.callTimeout.Some? then
      Err(Failure(CircuitBreakerFailed, GuardedCalls.Timeout(cfg.callTimeout.value)))
    else match a.result
      case Ok(v) => Ok(v)
      case Err(e) => Err(Failure(CircuitBreakerFailed, GuardedCalls.CallFailed(e)))
  }

  /** Attempts are closer together than the reset timeout. */
  ghost predicate Brisk<T, E>(cfg: CB.TargetConfig, plan: nat -> Attempt<T, E>) {
    forall n: nat :: CB.Elapsed(plan(n + 1).start, plan(n).finish) < cfg.resetTimeout
  }

  /**
    Retrying from attempt number `first` on, with `left` more failures to go before the circuit opens: every
    attempt up to the last one that runs fails, that one succeeds unless attempts or failures have been used
    up, and its result is returned, or else the open circuit reported if attempts are left.
  */
  ghost predicate Ends<T, E>(cfg: CB.TargetConfig, target: string, plan: nat -> Attempt<T, E>, maxAttempts: nat,
                             first: nat, left: nat, runs: nat, r: Result<T, Failure<GuardedCalls.CallError<E>>>)
  {
    var attempts := AtLeastOne(maxAttempts) - (first - 1);
    && 1 <= first <= runs <= first - 1 + left && runs <= AtLeastOne(maxAttempts)
    && (forall i: nat :: first - 1 <= i < runs - 1 ==> Told(cfg, plan(i)).Err?)
    && var last := Told(cfg, plan(runs - 1));
       && (last.Ok? || runs == AtLeastOne(maxAttempts) || runs == first - 1 + left)
       && r == if last.Err? && left < attempts
               then Err(Failure(CircuitBreakerOpen, GuardedCalls.CircuitOpen(target))) else last
  }

  /** An attempt on a closed breaker runs, and its failure is one step towards the opening. */
  lemma AttemptWhileClosed<T, E>(cfg: CB.TargetConfig, target: string, plan: nat -> Attempt<T, E>, c: Client)
    requires c.inner.state == CB.Closed && CB.Consistent(cfg, c.inner)
    ensures var (c', r) := GuardedAttempt(cfg, target, plan, c);
            && r == Told(cfg, plan(c.attempts)) && c'.attempts == c.attempts + 1 && c'.runs == c.runs + 1
            && CB.Consistent(cfg, c'.inner)
            && (r.Err? ==>
                 c'.inner == if c.inner.failureCount + 1 < AtLeastOne(cfg.failureThreshold)
                             then c.inner.(failureCount := c.inner.failureCount + 1)
                             else CB.ToOpen(c.inner, plan(c.attempts).finish))
  {
  }

  lemma AttemptWhileOpen<T, E>(cfg: CB.TargetConfig, target: string, plan: nat -> Attempt<T, E>, c: Client, since: nat)
    requires c.inner == CB.ToOpen(CB.NEW_BREAKER, since)
    requires CB.Elapsed(plan(c.attempts).start, since) < cfg.resetTimeout
    ensures GuardedAttempt(cfg, target, plan, c)
         == (c.(attempts := c.attempts + 1), Err(Failure(CircuitBreakerOpen, GuardedCalls.CircuitOpen(target))))
  {
  }

  lemma {:induction false} RetryOverBreakerFrom<T, E>(cfg: CB.TargetConfig, target: string,
                                                      plan: nat -> Attempt<T, E>, c: Client, maxAttempts: nat,
                                                      attempt: nat)
    requires 1 <= attempt <= AtLeastOne(maxAttempts) && c.attempts == c.runs == attempt - 1
    requires c.inner.state == CB.Closed && CB.Consistent(cfg, c.inner) && Brisk(cfg, plan)
    ensures var (end, r, _) := Retry(maxAttempts, GuardedOp(cfg, target, plan), c, attempt);
            Ends(cfg, target, plan, maxAttempts, attempt, AtLeastOne(cfg.failureThreshold) - c.inner.failureCount,
                 end.runs, r)
    decreases maxAttempts - attempt
  {
    var op := GuardedOp(cfg, target, plan);
    var (c', r) := GuardedAttempt(cfg, target, plan, c);
    assert op(c) == (c', r);
    AttemptWhileClosed(cfg, target, plan, c);
    if r.Err? && attempt < maxAttempts {
      if c'.inner.state == CB.Closed {
        RetryOverBreakerFrom(cfg, target, plan, c', maxAttempts, attempt + 1);
      } else {
        assert CB.Elapsed(plan(attempt - 1 + 1).start, plan(attempt - 1).finish) < cfg.resetTimeout;
        AttemptWhileOpen(cfg, target, plan, c', plan(attempt - 1).finish);
        assert op(c') == GuardedAttempt(cfg, target, plan, c');
      }
    }
  }

  /**
    A sole client retrying a guarded call whose attempts end in any way, with pauses shorter than the reset
    timeout, from a closed breaker that has seen `f` failures in a row: the operation runs up to its first
    success and at most `min(max(1, max_attempts), max(1, failure_threshold) - f)` times; the result of the last
    run is returned, or the open circuit, with the target's name, exactly when failures opened it with attempts
    left.
  */
  lemma RetryOverBreaker<T, E>(cfg: CB.TargetConfig, history: seq<CB.Op>, target: string,
                               plan: nat -> Attempt<T, E>, policy: RetryPolicy)
    requires CB.StateAfter(cfg, history) == CB.Closed && Brisk(cfg, plan)
    ensures var left := AtLeastOne(cfg.failureThreshold) - CB.TrailingFailures(cfg, history);
            var (end, r, _) := Retry(policy.maxAttempts, GuardedOp(cfg, target, plan),
                                     Client(CB.After(cfg, history), 0, 0), 1);
            left >= 1 && Ends(cfg, target, plan, policy.maxAttempts, 1, left, end.runs, r)
  {
    CB.ReachableConsistent(cfg, history);
    CB.FailureCountIsTrailingRun(cfg, history);
    RetryOverBreakerFrom(cfg, target, plan, Client(CB.After(cfg, history), 0, 0), policy.maxAttempts, 1);
  }
}
