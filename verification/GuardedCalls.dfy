/**
  The admit/run/record protocol around one shared breaker. `GuardedCallWith` is one call run to its end;
  the step system below interleaves the calls of any number of clients, with calls in flight across state
  changes, timeouts, errors the classifier excuses, and calls cancelled before anything is recorded.
*/
module GuardedCalls {
  import opened Core
  import CB = CircuitBreaker

  datatype CallError<E> = CircuitOpen(target: string) | CallFailed(error: E) | Timeout(duration: nat)

  /** How the awaited future ends: with its own result, or because the call timeout fires first. */
  datatype Completion<T, E> = Finished(result: Result<T, E>) | DeadlineElapsed

  /** What a call records on the breaker, and returns, once it has been admitted. */
  function Recorded<T, E>(cfg: CB.TargetConfig, g: CB.Inner, f: Completion<T, E>, isFailure: E -> bool, now: nat)
    : (CB.Inner, Result<T, CallError<E>>)
    requires f.DeadlineElapsed? ==> cfg.callTimeout.Some?
  {
    match f
    case Finished(Ok(v)) => (CB.Success(cfg, g), Ok(v))
    case Finished(Err(e)) => (if isFailure(e) then CB.Failure(cfg, g, now) else CB.Neutral(g), Err(CallFailed(e)))
    case DeadlineElapsed => (CB.Failure(cfg, g, now), Err(Timeout(cfg.callTimeout.value)))
  }

  /** A whole guarded call by a client that has the breaker to itself; the flag tells whether the future ran. */
  function Guarded<T, E>(cfg: CB.TargetConfig, g: CB.Inner, target: string, f: Completion<T, E>,
                         isFailure: E -> bool, start: nat, finish: nat)
    : (CB.Inner, Result<T, CallError<E>>, bool)
    requires f.DeadlineElapsed? ==> cfg.callTimeout.Some?
  {
    var (h, allowed) := CB.Allow(cfg, g, start);
    if !allowed then (h, Err(CircuitOpen(target)), false)
    else var (k, r) := Recorded(cfg, h, f, isFailure, finish); (k, r, true)
  }

  method GuardedCallWith<T, E>(breaker: CB.CircuitBreakerState, target: string, f: Completion<T, E>,
                               isFailure: E -> bool, start: nat, finish: nat)
    returns (r: Result<T, CallError<E>>, ran: bool)
    requires f.DeadlineElapsed? ==> breaker.config.callTimeout.Some?
    modifies breaker
    ensures (breaker.View(), r, ran)
         == Guarded(breaker.config, old(breaker.View()), target, f, isFailure, start, finish)
    ensures forall v :: r == Ok(v) <==> ran && f == Finished(Ok(v))
    ensures forall e :: r == Err(CallFailed(e)) <==> ran && f == Finished(Err(e))
    ensures forall d: nat ::
              r == Err(Timeout(d)) <==> ran && f.DeadlineElapsed? && breaker.config.callTimeout == Some(d)
    ensures r == Err(CircuitOpen(target)) <==> !ran
  {
    var allowed := breaker.ShouldAllow(start);
    if !allowed {
      return Err(CircuitOpen(target)), false;
    }
    ran := true;
    match f
    case Finished(Ok(v)) =>
      breaker.RecordSuccess();
      r := Ok(v);
    case Finished(Err(e)) =>
      if isFailure(e) {
        breaker.RecordFailure(finish);
      } else {
        breaker.RecordNeutral();
      }
      r := Err(CallFailed(e));
    case DeadlineElapsed =>
      breaker.RecordFailure(finish);
      r := Err(Timeout(breaker.config.callTimeout.value));
  }

  // ----- Interleaved clients -----

  datatype Outcome = Succeeded | Failed | Excused | TimedOut

  datatype Action =
    | Begin(client: nat, now: nat)
    | Complete(client: nat, outcome: Outcome, now: nat)
    | Cancel(client: nat)

  datatype System = System(inner: CB.Inner, inFlight: set<nat>)

  const NEW_SYSTEM := System(CB.NEW_BREAKER, {})

  function Recording(outcome: Outcome, now: nat): CB.Op {
    match outcome
    case Succeeded => CB.RecordSuccess
    case Excused => CB.RecordNeutral
    case Failed => CB.RecordFailure(now)
    case TimedOut => CB.RecordFailure(now)
  }

  predicate Enabled(cfg: CB.TargetConfig, sys: System, a: Action) {
    match a
    case Begin(c, _) => c !in sys.inFlight
    case Complete(c, outcome, _) => c in sys.inFlight && (outcome == TimedOut ==> cfg.callTimeout.Some?)
    case Cancel(c) => c in sys.inFlight
  }

  /** The breaker operation an enabled action amounts to. */
  function Issued(a: Action): CB.Op {
    match a
    case Begin(_, now) => CB.ShouldAllow(now)
    case Complete(_, outcome, now) => Recording(outcome, now)
    case Cancel(_) => CB.Dropped
  }

  function InFlightAfter(cfg: CB.TargetConfig, sys: System, a: Action): set<nat> {
    match a
    case Begin(c, now) => if CB.Allow(cfg, sys.inner, now).1 then sys.inFlight + {c} else sys.inFlight
    case Complete(c, _, _) => sys.inFlight - {c}
    case Cancel(c) => sys.inFlight - {c}
  }

  /** One step; an action that is not enabled leaves the system as it is. */
  function Step(cfg: CB.TargetConfig, sys: System, a: Action): System {
    if Enabled(cfg, sys, a)
    then System(CB.Apply(cfg, sys.inner, Issued(a)).0, InFlightAfter(cfg, sys, a))
    else sys
  }

  function Resume(cfg: CB.TargetConfig, sys: System, actions: seq<Action>): System {
    if actions == [] then sys else Step(cfg, Resume(cfg, sys, Front(actions)), Last(actions))
  }

  function After(cfg: CB.TargetConfig, actions: seq<Action>): System {
    Resume(cfg, NEW_SYSTEM, actions)
  }

  /** The run of breaker operations that an interleaving performs. */
  function BreakerRun(cfg: CB.TargetConfig, actions: seq<Action>): seq<CB.Op> {
    if actions == [] then []
    else
      BreakerRun(cfg, Front(actions))
      + (if Enabled(cfg, After(cfg, Front(actions)), Last(actions)) then [Issued(Last(actions))] else [])
  }

  /** Every result about breaker runs applies to every interleaving of guarded calls. */
  lemma {:induction false} InterleavingIsBreakerRun(cfg: CB.TargetConfig, actions: seq<Action>)
    ensures After(cfg, actions).inner == CB.After(cfg, BreakerRun(cfg, actions))
  {
    if actions != [] {
      InterleavingIsBreakerRun(cfg, Front(actions));
      if Enabled(cfg, After(cfg, Front(actions)), Last(actions)) {
        CB.RunStep(cfg, BreakerRun(cfg, Front(actions)), Issued(Last(actions)));
      } else {
        assert BreakerRun(cfg, actions) == BreakerRun(cfg, Front(actions));
      }
    }
  }

  function OutcomeOf<T, E>(f: Completion<T, E>, isFailure: E -> bool): Outcome {
    match f
    case Finished(Ok(_)) => Succeeded
    case Finished(Err(e)) => if isFailure(e) then Failed else Excused
    case DeadlineElapsed => TimedOut
  }

  lemma ResumeTwo(cfg: CB.TargetConfig, sys: System, actions: seq<Action>, a: Action, b: Action)
    ensures Resume(cfg, sys, actions + [a, b]) == Step(cfg, Step(cfg, Resume(cfg, sys, actions), a), b)
  {
    var all := actions + [a, b];
    assert Front(all) == actions + [a] && Last(all) == b;
    assert Front(actions + [a]) == actions && Last(actions + [a]) == a;
  }

  /** A call run to its end with nobody else about is a `Begin` directly followed by its `Complete`. */
  lemma SoleCallIsTwoSteps<T, E>(cfg: CB.TargetConfig, sys: System, c: nat, target: string,
                                 f: Completion<T, E>, isFailure: E -> bool, start: nat, finish: nat)
    requires c !in sys.inFlight && (f.DeadlineElapsed? ==> cfg.callTimeout.Some?)
    ensures Resume(cfg, sys, [Begin(c, start), Complete(c, OutcomeOf(f, isFailure), finish)])
         == sys.(inner := Guarded(cfg, sys.inner, target, f, isFailure, start, finish).0)
  {
    var begin, complete := Begin(c, start), Complete(c, OutcomeOf(f, isFailure), finish);
    ResumeTwo(cfg, sys, [], begin, complete);
    assert [] + [begin, complete] == [begin, complete];
    assert sys.inFlight + {c} - {c} == sys.inFlight;
  }

  /** Whether a call made at `start` gets in, by the state of the breaker after `run` and the clock. */
  predicate GetsIn(cfg: CB.TargetConfig, run: seq<CB.Op>, start: nat) {
    match CB.StateAfter(cfg, run)
    case Closed => true
    case Open => start >= CB.OpenedAt(cfg, run) + cfg.resetTimeout || cfg.resetTimeout == 0
    case HalfOpen => CB.SinceEntry(cfg, run, CB.Asked) % 0x1_0000_0000 < cfg.halfOpenMaxCalls
  }

  /**
    What a caller is told, after every run of the breaker: the future runs exactly if the call gets in, which
    the state and the clock decide; a result is passed on as it is, an error wrapped, a deadline reported with
    the configured timeout; and an open circuit, with the target's name, exactly if the future did not run.
  */
  lemma {:induction false} CallerIsToldOutcome<T, E>(cfg: CB.TargetConfig, run: seq<CB.Op>, target: string,
                                                     f: Completion<T, E>, isFailure: E -> bool, start: nat,
                                                     finish: nat)
    requires f.DeadlineElapsed? ==> cfg.callTimeout.Some?
    ensures var (_, r, ran) := Guarded(cfg, CB.After(cfg, run), target, f, isFailure, start, finish);
            && (ran <==> GetsIn(cfg, run, start))
            && (forall v :: r == Ok(v) <==> ran && f == Finished(Ok(v)))
            && (forall e :: r == Err(CallFailed(e)) <==> ran && f == Finished(Err(e)))
            && (forall d: nat :: r == Err(Timeout(d)) <==> ran && f.DeadlineElapsed? && cfg.callTimeout == Some(d))
            && (forall t :: r == Err(CircuitOpen(t)) <==> !ran && t == target)
  {
    CB.AdmitsIff(cfg, run, start);
  }

  /** The operations that a whole call performs on the breaker. */
  function Performed<T, E>(f: Completion<T, E>, isFailure: E -> bool, ran: bool, start: nat, finish: nat): seq<CB.Op> {
    if !ran then [CB.ShouldAllow(start)]
    else
      [CB.ShouldAllow(start),
       match f
       case Finished(Ok(_)) => CB.RecordSuccess
       case Finished(Err(e)) => if isFailure(e) then CB.RecordFailure(finish) else CB.RecordNeutral
       case DeadlineElapsed => CB.RecordFailure(finish)]
  }

  /** What a call leaves behind: a deadline always counts as a failure, an error only if the classifier says so. */
  lemma {:induction false} CallIsRecorded<T, E>(cfg: CB.TargetConfig, run: seq<CB.Op>, target: string,
                                                f: Completion<T, E>, isFailure: E -> bool, start: nat, finish: nat)
    requires f.DeadlineElapsed? ==> cfg.callTimeout.Some?
    ensures Guarded(cfg, CB.After(cfg, run), target, f, isFailure, start, finish).0
         == CB.After(cfg, run + Performed(f, isFailure, GetsIn(cfg, run, start), start, finish))
  {
    var ops := Performed(f, isFailure, GetsIn(cfg, run, start), start, finish);
    CB.AdmitsIff(cfg, run, start);
    CB.RunStep(cfg, run, CB.ShouldAllow(start));
    if GetsIn(cfg, run, start) {
      assert run + ops == run + [CB.ShouldAllow(start)] + [ops[1]];
      CB.RunStep(cfg, run + [CB.ShouldAllow(start)], ops[1]);
    }
  }

  /**
    A cancelled call records nothing: the breaker stays as it is when the future is dropped, in every state. All
    that such a call costs is a place in the budget, or the step to half-open, if it was let in there.
  */
  lemma {:induction false} CancelledCallRecordsNothing(cfg: CB.TargetConfig, actions: seq<Action>, c: nat, now: nat)
    ensures var sys := After(cfg, actions);
            && After(cfg, actions + [Cancel(c)]) == sys.(inFlight := sys.inFlight - {c})
            && (sys.inner.state == CB.Closed && c !in sys.inFlight ==>
                 After(cfg, actions + [Begin(c, now), Cancel(c)]) == sys)
            && (sys.inner.state == CB.HalfOpen && c !in sys.inFlight ==>
                 After(cfg, actions + [Begin(c, now), Cancel(c)]).inner
                 == sys.inner.(halfOpenCalls := (sys.inner.halfOpenCalls + 1) % 0x1_0000_0000))
  {
    var sys := After(cfg, actions);
    assert Front(actions + [Cancel(c)]) == actions;
    assert c !in sys.inFlight ==> sys.inFlight - {c} == sys.inFlight;
    assert c !in sys.inFlight ==> sys.inFlight + {c} - {c} == sys.inFlight;
    ResumeTwo(cfg, NEW_SYSTEM, actions, Begin(c, now), Cancel(c));
  }

  /** Calls of the current half-open episode that `what` applies to. */
  function Episode(cfg: CB.TargetConfig, actions: seq<Action>, what: CB.Tally): nat {
    CB.SinceEntry(cfg, BreakerRun(cfg, actions), what)
  }

  /** Every call admitted in the current episode is still in flight or has been accounted for. */
  lemma {:induction false} AdmittedAreAccountedFor(cfg: CB.TargetConfig, actions: seq<Action>)
    requires After(cfg, actions).inner.state == CB.HalfOpen
    ensures Episode(cfg, actions, CB.Admitted)
         <= |After(cfg, actions).inFlight| + Episode(cfg, actions, CB.Succeeded)
            + Episode(cfg, actions, CB.Neutrals) + Episode(cfg, actions, CB.Drops)
  {
    InterleavingIsBreakerRun(cfg, actions);
    var pre, a := Front(actions), Last(actions);
    InterleavingIsBreakerRun(cfg, pre);
    var sys := After(cfg, pre);
    if !Enabled(cfg, sys, a) {
      assert BreakerRun(cfg, actions) == BreakerRun(cfg, pre);
      AdmittedAreAccountedFor(cfg, pre);
    } else {
      var run := BreakerRun(cfg, actions);
      assert Front(run) == BreakerRun(cfg, pre) && Last(run) == Issued(a);
      CB.ReachableConsistent(cfg, Front(run));
      if sys.inner.state == CB.HalfOpen {
        AdmittedAreAccountedFor(cfg, pre);
      }
    }
  }

  /**
    No lock-out: as long as the probe budget has room for the recovery threshold beside the calls of the
    episode that were cancelled or excused, a half-open breaker with nothing in flight admits whoever asks next.
  */
  lemma NoLockOut(cfg: CB.TargetConfig, actions: seq<Action>, c: nat, now: nat)
    requires After(cfg, actions).inner.state == CB.HalfOpen && After(cfg, actions).inFlight == {}
    requires AtLeastOne(cfg.successThreshold) + Episode(cfg, actions, CB.Neutrals) + Episode(cfg, actions, CB.Drops)
          <= AtLeastOne(cfg.halfOpenMaxCalls)
    ensures After(cfg, actions + [Begin(c, now)]).inFlight == {c}
  {
    var run := BreakerRun(cfg, actions);
    InterleavingIsBreakerRun(cfg, actions);
    AdmittedAreAccountedFor(cfg, actions);
    CB.ReachableConsistent(cfg, run);
    CB.HalfOpenAccounting(cfg, run);
    CB.AdmittedAtLeast(cfg, Episode(cfg, actions, CB.Asked));
    assert Front(actions + [Begin(c, now)]) == actions;
  }

  function Begins(actions: seq<Action>): nat {
    if actions == [] then 0 else Begins(Front(actions)) + (if Last(actions).Begin? then 1 else 0)
  }

  /** The system `sys` after `asks` more calls have been refused. */
  function Refusing(sys: System, asks: nat): System {
    sys.(inner := sys.inner.(halfOpenCalls := (sys.inner.halfOpenCalls + asks) % U32_SIZE))
  }

  lemma RefusalStep(cfg: CB.TargetConfig, sys: System, asks: nat, a: Action)
    requires sys.inner.state == CB.HalfOpen && sys.inFlight == {}
    requires sys.inner.halfOpenCalls >= cfg.halfOpenMaxCalls && sys.inner.halfOpenCalls + asks < U32_SIZE
    ensures Step(cfg, Refusing(sys, asks), a) == Refusing(sys, if a.Begin? then asks + 1 else asks)
  {
    if a.Begin? {
      CB.WrapIncIsModular(sys.inner.halfOpenCalls + asks);
    }
  }

  lemma IdleUnlessBegin(cfg: CB.TargetConfig, sys: System, a: Action)
    requires sys.inFlight == {} && !a.Begin?
    ensures Step(cfg, sys, a) == sys
  {
  }

  /**
    Lock-out: once a half-open breaker with nothing in flight has spent its probe budget, it stays half-open
    and refuses every caller until its 32-bit call counter comes round, whatever anybody does and however
    long they wait; there is no timer on the half-open state.
  */
  lemma {:induction false} SpentBudgetLocksOut(cfg: CB.TargetConfig, sys: System, more: seq<Action>)
    requires sys.inner.state == CB.HalfOpen && sys.inFlight == {}
    requires sys.inner.halfOpenCalls >= cfg.halfOpenMaxCalls
    requires sys.inner.halfOpenCalls + Begins(more) <= U32_SIZE
    ensures Resume(cfg, sys, more) == Refusing(sys, Begins(more))
  {
    if more != [] {
      SpentBudgetLocksOut(cfg, sys, Front(more));
      if Last(more).Begin? {
        RefusalStep(cfg, sys, Begins(Front(more)), Last(more));
      } else {
        IdleUnlessBegin(cfg, Resume(cfg, sys, Front(more)), Last(more));
      }
    }
  }

  /** The lock-out ends exactly when the counter has come round and the budget is not zero. */
  lemma LockOutEndsAtWrap(cfg: CB.TargetConfig, sys: System, more: seq<Action>, c: nat, now: nat)
    requires sys.inner.state == CB.HalfOpen && sys.inFlight == {}
    requires sys.inner.halfOpenCalls >= cfg.halfOpenMaxCalls
    requires sys.inner.halfOpenCalls + Begins(more) <= U32_SIZE
    ensures Resume(cfg, sys, more + [Begin(c, now)]).inFlight == {c}
       <==> sys.inner.halfOpenCalls + Begins(more) == U32_SIZE && cfg.halfOpenMaxCalls > 0
  {
    SpentBudgetLocksOut(cfg, sys, more);
    assert Front(more + [Begin(c, now)]) == more;
    var calls := sys.inner.halfOpenCalls + Begins(more);
    assert calls % U32_SIZE == if calls == U32_SIZE then 0 else calls;
  }

  ghost predicate ReadyToProbe(cfg: CB.TargetConfig, sys: System, now: nat) {
    sys.inner.state == CB.Open && sys.inFlight == {} && sys.inner.lastFailureTime.Some?
    && CB.Elapsed(now, sys.inner.lastFailureTime.value) >= cfg.resetTimeout
  }

  /** How a probe is wasted: cancelled, or ended in an error the classifier excuses. */
  datatype Waste = Cancelled | ExcusedError

  function Wasting(w: Waste, now: nat): Action {
    match w
    case Cancelled => Cancel(0)
    case ExcusedError => Complete(0, Excused, now)
  }

  /** One call after the other: first the wasted ones, then `n` that the target answers well. */
  function Probes(wasted: seq<Waste>, n: nat, now: nat): seq<Action>
    decreases |wasted| + n
  {
    if n > 0 then Probes(wasted, n - 1, now) + [Begin(0, now), Complete(0, Succeeded, now)]
    else if wasted != [] then Probes(Front(wasted), 0, now) + [Begin(0, now), Wasting(Last(wasted), now)]
    else []
  }

  /**
    The calls that the 32-bit counter lets through after `w` wasted ones; the call that ends the Open state
    always passes.
  */
  function Budget(cfg: CB.TargetConfig, w: nat): nat {
    if w == 0 then AtLeastOne(cfg.halfOpenMaxCalls) else cfg.halfOpenMaxCalls
  }

  /** Half-open with nothing in flight, `w` wasted calls and `n` healthy ones into the episode. */
  ghost predicate Probing(cfg: CB.TargetConfig, sys: System, w: nat, n: nat) {
    && sys.inner.state == CB.HalfOpen && sys.inFlight == {}
    && sys.inner.halfOpenCalls == (w + n) % U32_SIZE
    && sys.inner.successCount <= n
    && (n > 0 ==> (sys.inner.successCount == n <==> w % U32_SIZE + n <= Budget(cfg, w)))
  }

  /** Asking for a call and, if it is let in, ending it with `a`. */
  lemma ProbeStep(cfg: CB.TargetConfig, sys: System, now: nat, a: Action)
    requires sys.inFlight == {} && (a == Cancel(0) || (a.Complete? && a.client == 0 && !a.outcome.TimedOut?))
    ensures var (asked, allowed) := CB.Allow(cfg, sys.inner, now);
            var end := if allowed then CB.Apply(cfg, asked, Issued(a)).0 else asked;
            Step(cfg, Step(cfg, sys, Begin(0, now)), a) == System(end, {})
  {
    var begun := Step(cfg, sys, Begin(0, now));
    if CB.Allow(cfg, sys.inner, now).1 {
      assert begun.inFlight == {0};
      assert {0} - {0} == {};
    }
  }

  lemma {:induction false} WastedProgress(cfg: CB.TargetConfig, sys: System, wasted: seq<Waste>, now: nat)
    requires ReadyToProbe(cfg, sys, now)
    ensures wasted != [] ==> Probing(cfg, Resume(cfg, sys, Probes(wasted, 0, now)), |wasted|, 0)
  {
    if wasted != [] {
      WastedProgress(cfg, sys, Front(wasted), now);
      var mid, a := Resume(cfg, sys, Probes(Front(wasted), 0, now)), Wasting(Last(wasted), now);
      ResumeTwo(cfg, sys, Probes(Front(wasted), 0, now), Begin(0, now), a);
      if Front(wasted) != [] {
        CB.WrapIncIsModular(|Front(wasted)|);
      }
      ProbeStep(cfg, mid, now, a);
    }
  }

  /** A healthy call is let in, and counted, exactly as long as all calls so far fit in the budget. */
  lemma AdmittedWithinBudget(cfg: CB.TargetConfig, w: nat, n: nat, calls: nat)
    requires w + n >= 1 && calls == (w + n) % U32_SIZE
    requires n > 0 ==> w % U32_SIZE + n <= Budget(cfg, w)
    ensures calls < cfg.halfOpenMaxCalls <==> w % U32_SIZE + n + 1 <= Budget(cfg, w)
  {
    if n > 0 {
      assert calls == (w % U32_SIZE + n) % U32_SIZE == w % U32_SIZE + n;
    }
  }

  lemma HealthyProbe(cfg: CB.TargetConfig, sys: System, w: nat, n: nat, now: nat)
    requires if w + n == 0 then ReadyToProbe(cfg, sys, now) else Probing(cfg, sys, w, n)
    requires n < AtLeastOne(cfg.successThreshold)
    ensures var end := Step(cfg, Step(cfg, sys, Begin(0, now)), Complete(0, Succeeded, now));
            if n + 1 == AtLeastOne(cfg.successThreshold) && w % U32_SIZE + n + 1 <= Budget(cfg, w)
            then end.inner.state == CB.Closed
            else Probing(cfg, end, w, n + 1)
  {
    ProbeStep(cfg, sys, now, Complete(0, Succeeded, now));
    if w + n > 0 {
      CB.WrapIncIsModular(w + n);
      if sys.inner.successCount == n {
        AdmittedWithinBudget(cfg, w, n, sys.inner.halfOpenCalls);
      }
    }
  }

  lemma {:induction false} ProbesProgress(cfg: CB.TargetConfig, sys: System, wasted: seq<Waste>, n: nat, now: nat)
    requires ReadyToProbe(cfg, sys, now)
    requires |wasted| + n >= 1 && n <= AtLeastOne(cfg.successThreshold)
    ensures var end := Resume(cfg, sys, Probes(wasted, n, now));
            if n == AtLeastOne(cfg.successThreshold) && |wasted| % U32_SIZE + n <= Budget(cfg, |wasted|)
            then end.inner.state == CB.Closed
            else Probing(cfg, end, |wasted|, n)
  {
    if n == 0 {
      WastedProgress(cfg, sys, wasted, now);
    } else {
      ResumeTwo(cfg, sys, Probes(wasted, n - 1, now), Begin(0, now), Complete(0, Succeeded, now));
      if |wasted| + n > 1 {
        ProbesProgress(cfg, sys, wasted, n - 1, now);
      }
      HealthyProbe(cfg, Resume(cfg, sys, Probes(wasted, n - 1, now)), |wasted|, n - 1, now);
    }
  }

  /**
    After any wasted probes, a recovered target closes the breaker through successful probes if and only if
    the recovery threshold still fits in the budget; otherwise the breaker is left half-open with nothing in
    flight, and its budget spent unless the call counter has just come round.
  */
  lemma {:induction false} RecoversIffBudgetLasts(cfg: CB.TargetConfig, sys: System, wasted: seq<Waste>, now: nat)
    requires ReadyToProbe(cfg, sys, now)
    ensures var s := AtLeastOne(cfg.successThreshold);
            var end := Resume(cfg, sys, Probes(wasted, s, now));
            && (end.inner.state == CB.Closed <==> |wasted| % U32_SIZE + s <= Budget(cfg, |wasted|))
            && (end.inner.state != CB.Closed ==>
                 && end.inner.state == CB.HalfOpen && end.inFlight == {}
                 && (|wasted| + s < U32_SIZE ==> end.inner.halfOpenCalls >= cfg.halfOpenMaxCalls))
  {
    var s := AtLeastOne(cfg.successThreshold);
    ProbesProgress(cfg, sys, wasted, s, now);
    var end := Resume(cfg, sys, Probes(wasted, s, now));
    if end.inner.state != CB.Closed && |wasted| + s < U32_SIZE {
      assert end.inner.halfOpenCalls == |wasted| + s;
    }
  }

  /** With no probe wasted, what counts is whether the recovery threshold fits in the probe budget. */
  lemma HealthyTargetRecoversIff(cfg: CB.TargetConfig, sys: System, now: nat)
    requires ReadyToProbe(cfg, sys, now)
    ensures var end := Resume(cfg, sys, Probes([], AtLeastOne(cfg.successThreshold), now)).inner;
            (end.state == CB.Closed <==> cfg.successThreshold <= AtLeastOne(cfg.halfOpenMaxCalls))
            && (end.state != CB.Closed ==> end.state == CB.HalfOpen && end.halfOpenCalls >= cfg.halfOpenMaxCalls)
  {
    RecoversIffBudgetLasts(cfg, sys, [], now);
    assert AtLeastOne(cfg.successThreshold) < U32_SIZE;
  }
}
