/**
  The circuit breaker of one target: a three-state machine whose methods each run under a single lock, so
  every operation is one atomic step. Instants are readings of one monotonic clock, passed in by the caller.
  Counters are `u32` and wrap around as in a release build; which of them can really wrap is a result below.
*/
module CircuitBreaker {
  import opened Core

  datatype CircuitState = Closed | Open | HalfOpen

  datatype TargetConfig = TargetConfig(
    failureThreshold: u32,
    successThreshold: u32,
    resetTimeout: nat,
    halfOpenMaxCalls: u32,
    callTimeout: Option<nat>)

  datatype Inner = Inner(
    state: CircuitState,
    failureCount: u32,
    successCount: u32,
    halfOpenCalls: u32,
    lastFailureTime: Option<nat>)

  const NEW_BREAKER := Inner(Closed, 0, 0, 0, None)

  // ----- One operation on the guarded state -----

  function ToOpen(g: Inner, now: nat): Inner {
    Inner(Open, 0, 0, 0, Some(now))
  }

  function ToHalfOpen(g: Inner): Inner {
    g.(state := HalfOpen, successCount := 0, halfOpenCalls := 0)
  }

  function ToClosed(g: Inner): Inner {
    g.(state := Closed, failureCount := 0, successCount := 0, halfOpenCalls := 0)
  }

  /** `Instant::elapsed`, which saturates at zero. */
  function Elapsed(now: nat, since: nat): nat {
    if now < since then 0 else now - since
  }

  function Allow(cfg: TargetConfig, g: Inner, now: nat): (Inner, bool) {
    match g.state
    case Closed => (g, true)
    case Open =>
      if g.lastFailureTime.Some? && Elapsed(now, g.lastFailureTime.value) >= cfg.resetTimeout
      then (ToHalfOpen(g).(halfOpenCalls := 1), true)
      else (g, false)
    case HalfOpen =>
      (g.(halfOpenCalls := WrapInc(g.halfOpenCalls)), g.halfOpenCalls < cfg.halfOpenMaxCalls)
  }

  function Success(cfg: TargetConfig, g: Inner): Inner {
    match g.state
    case Closed => g.(failureCount := 0)
    case HalfOpen =>
      var n := WrapInc(g.successCount);
      if n >= cfg.successThreshold then ToClosed(g) else g.(successCount := n)
    case Open => g
  }

  function Neutral(g: Inner): Inner {
    if g.state == Closed then g.(failureCount := 0) else g
  }

  function Failure(cfg: TargetConfig, g: Inner, now: nat): Inner {
    match g.state
    case Closed =>
      var n := WrapInc(g.failureCount);
      if n >= cfg.failureThreshold then ToOpen(g, now) else g.(failureCount := n)
    case HalfOpen => ToOpen(g, now)
    case Open => g
  }

  function FastFailing(cfg: TargetConfig, g: Inner, now: nat): bool {
    g.state == Open && g.lastFailureTime.Some? && Elapsed(now, g.lastFailureTime.value) < cfg.resetTimeout
  }

  // ----- The shared object -----

  class CircuitBreakerState {
    const config: TargetConfig
    var state: CircuitState
    var failureCount: u32
    var successCount: u32
    var halfOpenCalls: u32
    var lastFailureTime: Option<nat>

    function View(): Inner
      reads this
    {
      Inner(state, failureCount, successCount, halfOpenCalls, lastFailureTime)
    }

    constructor (config: TargetConfig)
      ensures View() == NEW_BREAKER && this.config == config
    {
      this.config := config;
      state, failureCount, successCount, halfOpenCalls, lastFailureTime := Closed, 0, 0, 0, None;
    }

    method TransitionToOpen(now: nat)
      modifies this
      ensures View() == ToOpen(old(View()), now)
    {
      state := Open;
      lastFailureTime := Some(now);
      failureCount, successCount, halfOpenCalls := 0, 0, 0;
    }

    method TransitionToHalfOpen()
      modifies this
      ensures View() == ToHalfOpen(old(View()))
    {
      state := HalfOpen;
      successCount, halfOpenCalls := 0, 0;
    }

    method TransitionToClosed()
      modifies this
      ensures View() == ToClosed(old(View()))
    {
      state := Closed;
      failureCount, successCount, halfOpenCalls := 0, 0, 0;
    }

    method ShouldAllow(now: nat) returns (allowed: bool)
      modifies this
      ensures (View(), allowed) == Allow(config, old(View()), now)
    {
      match state
      case Closed => return true;
      case Open =>
        if lastFailureTime.Some? && Elapsed(now, lastFailureTime.value) >= config.resetTimeout {
          TransitionToHalfOpen();
          halfOpenCalls := WrapInc(halfOpenCalls);
          return true;
        }
        return false;
      case HalfOpen =>
        var currentCalls := halfOpenCalls;
        halfOpenCalls := WrapInc(halfOpenCalls);
        return currentCalls < config.halfOpenMaxCalls;
    }

    method RecordSuccess()
      modifies this
      ensures View() == Success(config, old(View()))
    {
      match state
      case Closed => failureCount := 0;
      case HalfOpen =>
        successCount := WrapInc(successCount);
        if successCount >= config.successThreshold {
          TransitionToClosed();
        }
      case Open =>
    }

    method RecordNeutral()
      modifies this
      ensures View() == Neutral(old(View()))
    {
      if state == Closed {
        failureCount := 0;
      }
    }

    method RecordFailure(now: nat)
      modifies this
      ensures View() == Failure(config, old(View()), now)
    {
      match state
      case Closed =>
        failureCount := WrapInc(failureCount);
        if failureCount >= config.failureThreshold {
          TransitionToOpen(now);
        }
      case HalfOpen => TransitionToOpen(now);
      case Open =>
    }

    method IsOpen() returns (b: bool)
      ensures b == (View().state == Open)
    {
      b := state == Open;
    }

    method IsFastFailing(now: nat) returns (b: bool)
      ensures b == FastFailing(config, View(), now)
    {
      b := state == Open && lastFailureTime.Some? && Elapsed(now, lastFailureTime.value) < config.resetTimeout;
    }
  }

  // ----- Runs: any sequence of operations, by any number of callers, in lock order -----

  /** `Dropped` is a call whose future was cancelled: nothing is recorded for it. */
  datatype Op =
    | ShouldAllow(now: nat)
    | RecordSuccess
    | RecordNeutral
    | RecordFailure(now: nat)
    | Dropped
    | IsOpen
    | IsFastFailing(now: nat)
    | CurrentState
    | FailureCount
    | SuccessCount

  datatype Answer = Done | Allowed(allowed: bool) | Flag(flag: bool) | StateIs(state: CircuitState) | Count(count: nat)

  function Apply(cfg: TargetConfig, g: Inner, op: Op): (Inner, Answer) {
    match op
    case ShouldAllow(now) => var (h, ok) := Allow(cfg, g, now); (h, Allowed(ok))
    case RecordSuccess => (Success(cfg, g), Done)
    case RecordNeutral => (Neutral(g), Done)
    case RecordFailure(now) => (Failure(cfg, g, now), Done)
    case Dropped => (g, Done)
    case IsOpen => (g, Flag(g.state == Open))
    case IsFastFailing(now) => (g, Flag(FastFailing(cfg, g, now)))
    case CurrentState => (g, StateIs(g.state))
    case FailureCount => (g, Count(g.failureCount))
    case SuccessCount => (g, Count(g.successCount))
  }

  /** The state a new breaker is in after a run. */
  function After(cfg: TargetConfig, run: seq<Op>): Inner {
    if run == [] then NEW_BREAKER else Apply(cfg, After(cfg, Front(run)), Last(run)).0
  }

  /** The answers given along a run. */
  function Answers(cfg: TargetConfig, run: seq<Op>): seq<Answer> {
    if run == [] then [] else Answers(cfg, Front(run)) + [AnswerTo(cfg, Front(run), Last(run))]
  }

  /** What the breaker answers to `op` right after `run`. */
  function AnswerTo(cfg: TargetConfig, run: seq<Op>, op: Op): Answer {
    Apply(cfg, After(cfg, run), op).1
  }

  /** The visible state after a run. */
  function StateAfter(cfg: TargetConfig, run: seq<Op>): CircuitState {
    After(cfg, run).state
  }

  lemma RunStep(cfg: TargetConfig, run: seq<Op>, op: Op)
    ensures After(cfg, run + [op]) == Apply(cfg, After(cfg, run), op).0
  {
    assert Front(run + [op]) == run;
  }

  // ----- What every reachable state satisfies -----

  ghost predicate Consistent(cfg: TargetConfig, g: Inner) {
    match g.state
    case Closed => g.failureCount < AtLeastOne(cfg.failureThreshold) && g.successCount == g.halfOpenCalls == 0
    case Open => g.failureCount == g.successCount == g.halfOpenCalls == 0 && g.lastFailureTime.Some?
    case HalfOpen => g.failureCount == 0 && g.successCount < AtLeastOne(cfg.successThreshold) && g.lastFailureTime.Some?
  }

  lemma {:induction false} ReachableConsistent(cfg: TargetConfig, run: seq<Op>)
    ensures Consistent(cfg, After(cfg, run))
  {
    if run != [] {
      ReachableConsistent(cfg, Front(run));
    }
  }

  /** The failure and success counters never wrap: whatever the run, counting one more outcome adds exactly one. */
  lemma {:induction false} CountersNeverWrap(cfg: TargetConfig, run: seq<Op>)
    ensures WrapInc(After(cfg, run).failureCount) == After(cfg, run).failureCount + 1
    ensures WrapInc(After(cfg, run).successCount) == After(cfg, run).successCount + 1
  {
    ReachableConsistent(cfg, run);
  }

  // ----- The failure counter refines the trace -----

  /**
    The length of the trailing run of failures recorded since Closed was last entered: a success or a neutral
    outcome ends a run, every other operation leaves it alone.
  */
  function TrailingFailures(cfg: TargetConfig, run: seq<Op>): nat {
    if run == [] || StateAfter(cfg, Front(run)) != Closed then 0
    else if Last(run).RecordFailure? then TrailingFailures(cfg, Front(run)) + 1
    else if Last(run).RecordSuccess? || Last(run).RecordNeutral? then 0
    else TrailingFailures(cfg, Front(run))
  }

  lemma {:induction false} FailureCountIsTrailingRun(cfg: TargetConfig, run: seq<Op>)
    requires StateAfter(cfg, run) == Closed
    ensures After(cfg, run).failureCount == TrailingFailures(cfg, run)
  {
    if run != [] {
      ReachableConsistent(cfg, Front(run));
      if StateAfter(cfg, Front(run)) == Closed {
        FailureCountIsTrailingRun(cfg, Front(run));
      }
    }
  }

  /** A Closed breaker opens exactly when the trailing run of failures reaches the threshold. */
  lemma {:induction false} OpensExactlyAtThreshold(cfg: TargetConfig, run: seq<Op>, op: Op)
    requires StateAfter(cfg, run) == Closed
    ensures StateAfter(cfg, run + [op]) == Open
       <==> op.RecordFailure? && TrailingFailures(cfg, run + [op]) == AtLeastOne(cfg.failureThreshold)
    ensures StateAfter(cfg, run + [op]) != HalfOpen
  {
    RunStep(cfg, run, op);
    ReachableConsistent(cfg, run);
    FailureCountIsTrailingRun(cfg, run);
    assert Front(run + [op]) == run;
  }

  // ----- Half-open episodes -----

  datatype Tally = Asked | Admitted | Succeeded | Neutrals | Drops | Failed

  predicate Tallied(what: Tally, op: Op, answer: Answer) {
    match what
    case Asked => op.ShouldAllow?
    case Admitted => op.ShouldAllow? && answer == Allowed(true)
    case Succeeded => op.RecordSuccess?
    case Neutrals => op.RecordNeutral?
    case Drops => op.Dropped?
    case Failed => op.RecordFailure?
  }

  /** How many operations of the current half-open episode, its entering call included, are `what`; 0 outside one. */
  function SinceEntry(cfg: TargetConfig, run: seq<Op>, what: Tally): nat {
    if run == [] || StateAfter(cfg, run) != HalfOpen then 0
    else
      (if StateAfter(cfg, Front(run)) == HalfOpen then SinceEntry(cfg, Front(run), what) else 0)
      + (if Tallied(what, Last(run), AnswerTo(cfg, Front(run), Last(run))) then 1 else 0)
  }

  /** How many of the first `asks` calls of an episode get in when the call counter wraps at 2^32. */
  function AdmittedOf(cfg: TargetConfig, asks: nat): nat {
    if asks <= 1 then asks
    else AdmittedOf(cfg, asks - 1) + (if (asks - 1) % U32_SIZE < cfg.halfOpenMaxCalls then 1 else 0)
  }

  lemma WrapIncIsModular(n: nat)
    ensures WrapInc(n % U32_SIZE) == (n + 1) % U32_SIZE
  {
  }

  lemma {:induction false} CallsCountAsks(cfg: TargetConfig, run: seq<Op>)
    requires StateAfter(cfg, run) == HalfOpen
    ensures SinceEntry(cfg, run, Asked) >= 1
    ensures After(cfg, run).halfOpenCalls == SinceEntry(cfg, run, Asked) % U32_SIZE
  {
    ReachableConsistent(cfg, Front(run));
    if StateAfter(cfg, Front(run)) == HalfOpen {
      CallsCountAsks(cfg, Front(run));
      WrapIncIsModular(SinceEntry(cfg, Front(run), Asked));
    }
  }

  lemma {:induction false} AdmissionsFollowBudget(cfg: TargetConfig, run: seq<Op>)
    requires StateAfter(cfg, run) == HalfOpen
    ensures SinceEntry(cfg, run, Admitted) == AdmittedOf(cfg, SinceEntry(cfg, run, Asked))
  {
    ReachableConsistent(cfg, Front(run));
    if StateAfter(cfg, Front(run)) == HalfOpen {
      CallsCountAsks(cfg, Front(run));
      AdmissionsFollowBudget(cfg, Front(run));
    }
  }

  lemma {:induction false} SuccessesCounted(cfg: TargetConfig, run: seq<Op>)
    requires StateAfter(cfg, run) == HalfOpen
    ensures After(cfg, run).successCount == SinceEntry(cfg, run, Succeeded)
    ensures SinceEntry(cfg, run, Failed) == 0
  {
    ReachableConsistent(cfg, Front(run));
    if StateAfter(cfg, Front(run)) == HalfOpen {
      SuccessesCounted(cfg, Front(run));
    }
  }

  /** In every run, what the counters of a half-open breaker mean in terms of the episode so far. */
  lemma {:induction false} HalfOpenAccounting(cfg: TargetConfig, run: seq<Op>)
    requires StateAfter(cfg, run) == HalfOpen
    ensures SinceEntry(cfg, run, Asked) >= 1
    ensures After(cfg, run).halfOpenCalls == SinceEntry(cfg, run, Asked) % U32_SIZE
    ensures SinceEntry(cfg, run, Admitted) == AdmittedOf(cfg, SinceEntry(cfg, run, Asked))
    ensures After(cfg, run).successCount == SinceEntry(cfg, run, Succeeded)
    ensures SinceEntry(cfg, run, Failed) == 0
  {
    CallsCountAsks(cfg, run);
    AdmissionsFollowBudget(cfg, run);
    SuccessesCounted(cfg, run);
  }

  lemma {:induction false} AdmittedAtLeast(cfg: TargetConfig, asks: nat)
    ensures AdmittedOf(cfg, asks) >= Min(asks, AtLeastOne(cfg.halfOpenMaxCalls))
    ensures asks <= U32_SIZE || cfg.halfOpenMaxCalls == 0
        ==> AdmittedOf(cfg, asks) == Min(asks, AtLeastOne(cfg.halfOpenMaxCalls))
    ensures asks > U32_SIZE && cfg.halfOpenMaxCalls > 0
        ==> AdmittedOf(cfg, asks) > AtLeastOne(cfg.halfOpenMaxCalls)
  {
    if asks > 1 {
      AdmittedAtLeast(cfg, asks - 1);
      if asks - 1 == U32_SIZE {
        assert (asks - 1) % U32_SIZE == 0;
      } else if asks - 1 < U32_SIZE {
        assert (asks - 1) % U32_SIZE == asks - 1;
      }
    }
  }

  /**
    The probe budget: an episode admits `min(asked, max(1, half_open_max_calls))` calls, exactly as long as the
    32-bit call counter has not come round again.
  */
  lemma {:induction false} EpisodeBudget(cfg: TargetConfig, run: seq<Op>)
    requires StateAfter(cfg, run) == HalfOpen
    ensures SinceEntry(cfg, run, Admitted) == Min(SinceEntry(cfg, run, Asked), AtLeastOne(cfg.halfOpenMaxCalls))
       <==> SinceEntry(cfg, run, Asked) <= U32_SIZE || cfg.halfOpenMaxCalls == 0
  {
    HalfOpenAccounting(cfg, run);
    AdmittedAtLeast(cfg, SinceEntry(cfg, run, Asked));
  }

  /**
    A half-open breaker closes exactly on the success that makes `max(1, success_threshold)` of them since
    entry, opens exactly on a failure, and stays half-open otherwise.
  */
  lemma {:induction false} HalfOpenExits(cfg: TargetConfig, run: seq<Op>, op: Op)
    requires StateAfter(cfg, run) == HalfOpen
    ensures StateAfter(cfg, run + [op]) == Closed
       <==> op.RecordSuccess? && SinceEntry(cfg, run, Succeeded) + 1 == AtLeastOne(cfg.successThreshold)
    ensures StateAfter(cfg, run + [op]) == Open <==> op.RecordFailure?
  {
    RunStep(cfg, run, op);
    ReachableConsistent(cfg, run);
    HalfOpenAccounting(cfg, run);
  }

  // ----- The fail-fast window -----

  function Reading(op: Op): Option<nat> {
    match op
    case ShouldAllow(now) => Some(now)
    case RecordFailure(now) => Some(now)
    case IsFastFailing(now) => Some(now)
    case _ => None
  }

  /** The clock never goes backwards along the run. */
  ghost predicate Monotone(run: seq<Op>) {
    forall i, j :: 0 <= i < j < |run| && Reading(run[i]).Some? && Reading(run[j]).Some?
               ==> Reading(run[i]).value <= Reading(run[j]).value
  }

  /** Operation `i` of the run is the failure that opened the circuit. */
  ghost predicate OpenedBy(cfg: TargetConfig, run: seq<Op>, i: nat) {
    i < |run| && run[i].RecordFailure? && StateAfter(cfg, run[..i]) != Open && StateAfter(cfg, run[..i + 1]) == Open
  }

  /** Between an opening and the first call that comes late enough, nothing moves the breaker or its timer. */
  lemma {:induction false} StaysOpen(cfg: TargetConfig, run: seq<Op>, i: nat, j: nat)
    requires Monotone(run) && OpenedBy(cfg, run, i) && i < j <= |run|
    requires forall k :: i < k < j && run[k].ShouldAllow? ==> run[k].now < run[i].now + cfg.resetTimeout
    ensures After(cfg, run[..j]) == ToOpen(NEW_BREAKER, run[i].now)
  {
    if j == i + 1 {
      assert Front(run[..j]) == run[..i];
    } else {
      StaysOpen(cfg, run, i, j - 1);
      assert Front(run[..j]) == run[..j - 1];
    }
  }

  /**
    No call gets through before `reset_timeout` has passed since the opening, however many late failures
    arrive, and the first call to ask after that gets through.
  */
  lemma {:induction false} FailFastWindow(cfg: TargetConfig, run: seq<Op>, i: nat, j: nat)
    requires Monotone(run) && OpenedBy(cfg, run, i) && i < j < |run| && run[j].ShouldAllow?
    requires run[j].now < run[i].now + cfg.resetTimeout
          || forall k :: i < k < j && run[k].ShouldAllow? ==> run[k].now < run[i].now + cfg.resetTimeout
    ensures AnswerTo(cfg, run[..j], run[j]) == Allowed(run[j].now >= run[i].now + cfg.resetTimeout)
  {
    StaysOpen(cfg, run, i, j);
  }

  /** The instant of the opening, read off the run. */
  function OpenedAt(cfg: TargetConfig, run: seq<Op>): nat {
    if run == [] then 0
    else if StateAfter(cfg, Front(run)) != Open && Last(run).RecordFailure? then Last(run).now
    else OpenedAt(cfg, Front(run))
  }

  /** While Open, the timer holds the opening instant: late failures never push it back. */
  lemma {:induction false} TimerHoldsOpening(cfg: TargetConfig, run: seq<Op>)
    requires StateAfter(cfg, run) == Open
    ensures After(cfg, run).lastFailureTime == Some(OpenedAt(cfg, run))
  {
    ReachableConsistent(cfg, Front(run));
    if StateAfter(cfg, Front(run)) == Open {
      TimerHoldsOpening(cfg, Front(run));
    }
  }

  /**
    Which calls get in, in every run: all while Closed; while Open those that come `reset_timeout` after the
    opening; while half-open those that find the number of calls asked so far, which wraps at 2^32, below the
    budget.
  */
  lemma {:induction false} AdmitsIff(cfg: TargetConfig, run: seq<Op>, now: nat)
    ensures AnswerTo(cfg, run, ShouldAllow(now)) == Allowed(
              match StateAfter(cfg, run) {
                case Closed => true
                case Open => now >= OpenedAt(cfg, run) + cfg.resetTimeout || cfg.resetTimeout == 0
                case HalfOpen => SinceEntry(cfg, run, Asked) % 0x1_0000_0000 < cfg.halfOpenMaxCalls
              })
    ensures StateAfter(cfg, run) != Open ==> StateAfter(cfg, run + [ShouldAllow(now)]) == StateAfter(cfg, run)
    ensures StateAfter(cfg, run) == Open ==>
              StateAfter(cfg, run + [ShouldAllow(now)])
              == if AnswerTo(cfg, run, ShouldAllow(now)) == Allowed(true) then HalfOpen else Open
  {
    RunStep(cfg, run, ShouldAllow(now));
    match StateAfter(cfg, run)
    case Closed =>
    case Open => TimerHoldsOpening(cfg, run);
    case HalfOpen => CallsCountAsks(cfg, run);
  }

  // ----- Peeks do not interfere -----

  predicate IsPeek(op: Op) {
    op.IsOpen? || op.IsFastFailing? || op.CurrentState? || op.FailureCount? || op.SuccessCount?
  }

  function WithoutPeeks(run: seq<Op>): seq<Op> {
    if run == [] then []
    else WithoutPeeks(Front(run)) + (if IsPeek(Last(run)) then [] else [Last(run)])
  }

  /** The answers of a run that do not belong to a peek. */
  function DrivingAnswers(cfg: TargetConfig, run: seq<Op>): seq<Answer> {
    if run == [] then []
    else DrivingAnswers(cfg, Front(run)) + (if IsPeek(Last(run)) then [] else [AnswerTo(cfg, Front(run), Last(run))])
  }

  /** Deleting every peek from a run changes neither the final state nor any other answer. */
  lemma {:induction false} PeeksDoNotInterfere(cfg: TargetConfig, run: seq<Op>)
    ensures After(cfg, WithoutPeeks(run)) == After(cfg, run)
    ensures Answers(cfg, WithoutPeeks(run)) == DrivingAnswers(cfg, run)
  {
    if run != [] {
      PeeksDoNotInterfere(cfg, Front(run));
      if IsPeek(Last(run)) {
        assert WithoutPeeks(run) == WithoutPeeks(Front(run));
        assert DrivingAnswers(cfg, run) == DrivingAnswers(cfg, Front(run));
      } else {
        assert Front(WithoutPeeks(run)) == WithoutPeeks(Front(run));
      }
    }
  }

  /**
    What the peeks tell, in every run: the state, the trailing failures while Closed, and the successes of the
    half-open episode; outside these states the counters read zero.
  */
  lemma {:induction false} PeeksTellTheTrace(cfg: TargetConfig, run: seq<Op>)
    ensures AnswerTo(cfg, run, CurrentState) == StateIs(StateAfter(cfg, run))
    ensures AnswerTo(cfg, run, IsOpen) == Flag(StateAfter(cfg, run) == Open)
    ensures AnswerTo(cfg, run, FailureCount)
         == Count(if StateAfter(cfg, run) == Closed then TrailingFailures(cfg, run) else 0)
    ensures AnswerTo(cfg, run, SuccessCount) == Count(SinceEntry(cfg, run, Succeeded))
  {
    ReachableConsistent(cfg, run);
    match StateAfter(cfg, run)
    case Closed => FailureCountIsTrailingRun(cfg, run);
    case Open =>
    case HalfOpen => SuccessesCounted(cfg, run);
  }

  /** In every reachable state, fast-failing is exactly being Open and about to refuse at that instant. */
  lemma {:induction false} FastFailingPredictsRefusal(cfg: TargetConfig, run: seq<Op>, now: nat)
    ensures AnswerTo(cfg, run, IsFastFailing(now))
         == Flag(StateAfter(cfg, run) == Open && AnswerTo(cfg, run, ShouldAllow(now)) == Allowed(false))
  {
    ReachableConsistent(cfg, run);
  }
}
