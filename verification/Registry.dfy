/**
  The registry of named circuit breakers: a shared map from target names to breaker objects. Configured
  targets exist from the start, the others are created on first use with the default configuration, and
  every clone of the registry shares the same map and the same breaker objects.
*/
module Registry {
  import opened Core
  import CB = CircuitBreaker

  /** The defaults, with the reset timeout in nanoseconds. */
  const DEFAULT_TARGET := CB.TargetConfig(5, 3, 30_000_000_000, 3, None)

  /** One registered breaker, by value. */
  datatype Slot = Slot(config: CB.TargetConfig, inner: CB.Inner)

  type Slots = map<string, Slot>

  function NewSlots(targets: map<string, CB.TargetConfig>): Slots {
    map t | t in targets :: Slot(targets[t], CB.NEW_BREAKER)
  }

  class CircuitBreakerRegistry {
    var breakers: map<string, CB.CircuitBreakerState>

    /** No two targets share a breaker. */
    ghost predicate Valid()
      reads this
    {
      forall s, t :: s in breakers && t in breakers && s != t ==> breakers[s] != breakers[t]
    }

    ghost function View(): Slots
      reads this, breakers.Values
    {
      map t | t in breakers :: Slot(breakers[t].config, breakers[t].View())
    }

    constructor (targets: map<string, CB.TargetConfig>)
      ensures Valid() && fresh(breakers.Values)
      ensures View() == NewSlots(targets)
    {
      breakers := map[];
      new;
      var rest := targets.Keys;
      while rest != {}
        invariant rest <= targets.Keys && breakers.Keys == targets.Keys - rest
        invariant Valid() && forall t :: t in breakers ==> fresh(breakers[t])
        invariant forall t :: t in breakers ==> breakers[t].config == targets[t] && breakers[t].View() == CB.NEW_BREAKER
      {
        var name :| name in rest;
        var state := new CB.CircuitBreakerState(targets[name]);
        breakers := breakers[name := state];
        rest := rest - {name};
      }
    }

    method Get(target: string) returns (b: Option<CB.CircuitBreakerState>)
      ensures b == if target in breakers then Some(breakers[target]) else None
    {
      b := if target in breakers then Some(breakers[target]) else None;
    }

    method GetOrDefault(target: string) returns (b: CB.CircuitBreakerState)
      requires Valid()
      modifies this
      ensures Valid() && target in breakers && b == breakers[target]
      ensures fresh(breakers.Values - old(breakers.Values))
      ensures forall t :: t in old(breakers) ==> t in breakers && breakers[t] == old(breakers[t])
      ensures View() == Ensured(old(View()), target)
    {
      if target !in breakers {
        var state := new CB.CircuitBreakerState(DEFAULT_TARGET);
        breakers := breakers[target := state];
      }
      b := breakers[target];
    }
  }

  /** One operation on a breaker object, whichever it is. */
  method Perform(b: CB.CircuitBreakerState, op: CB.Op) returns (answer: CB.Answer)
    modifies b
    ensures (b.View(), answer) == CB.Apply(b.config, old(b.View()), op)
  {
    match op
    case ShouldAllow(now) =>
      var ok := b.ShouldAllow(now);
      answer := CB.Allowed(ok);
    case RecordSuccess =>
      b.RecordSuccess();
      answer := CB.Done;
    case RecordNeutral =>
      b.RecordNeutral();
      answer := CB.Done;
    case RecordFailure(now) =>
      b.RecordFailure(now);
      answer := CB.Done;
    case Dropped => answer := CB.Done;
    case IsOpen =>
      var open := b.IsOpen();
      answer := CB.Flag(open);
    case IsFastFailing(now) =>
      var failing := b.IsFastFailing(now);
      answer := CB.Flag(failing);
    case CurrentState => answer := CB.StateIs(b.state);
    case FailureCount => answer := CB.Count(b.failureCount);
    case SuccessCount => answer := CB.Count(b.successCount);
  }

  // ----- Requests against the registry -----

  /** `Use` goes through `get_or_default`; `Try` goes through `get`, or through a handle obtained before. */
  datatype Request = Use(target: string, op: CB.Op) | Try(target: string, op: CB.Op)

  function Ensured(slots: Slots, target: string): Slots {
    if target in slots then slots else slots[target := Slot(DEFAULT_TARGET, CB.NEW_BREAKER)]
  }

  function Applied(slots: Slots, target: string, op: CB.Op): (Slots, Option<CB.Answer>)
    requires target in slots
  {
    var (inner, answer) := CB.Apply(slots[target].config, slots[target].inner, op);
    (slots[target := Slot(slots[target].config, inner)], Some(answer))
  }

  function Step(slots: Slots, r: Request): (Slots, Option<CB.Answer>) {
    match r
    case Use(t, op) => Applied(Ensured(slots, t), t, op)
    case Try(t, op) => if t in slots then Applied(slots, t, op) else (slots, None)
  }

  /** A client's request on the shared objects: only the target's own breaker changes. */
  method Serve(registry: CircuitBreakerRegistry, r: Request) returns (answer: Option<CB.Answer>)
    requires registry.Valid()
    modifies registry, registry.breakers.Values
    ensures registry.Valid()
    ensures (registry.View(), answer) == Step(old(registry.View()), r)
  {
    match r
    case Use(t, op) =>
      var b := registry.GetOrDefault(t);
      ghost var found := registry.View();
      var a := Perform(b, op);
      assert registry.View() == Applied(found, t, op).0;
      answer := Some(a);
    case Try(t, op) =>
      var handle := registry.Get(t);
      match handle
      case None => answer := None;
      case Some(b) =>
        var a := Perform(b, op);
        assert registry.View() == Applied(old(registry.View()), t, op).0;
        answer := Some(a);
  }

  // ----- Runs -----

  function After(targets: map<string, CB.TargetConfig>, run: seq<Request>): Slots {
    if run == [] then NewSlots(targets) else Step(After(targets, Front(run)), Last(run)).0
  }

  /** `t` was configured, or some request of the run has gone through `get_or_default` for it. */
  predicate Known(targets: map<string, CB.TargetConfig>, run: seq<Request>, t: string) {
    t in targets || exists i :: 0 <= i < |run| && run[i].Use? && run[i].target == t
  }

  /** Whether the last request of a run reaches the breaker of `t`. */
  predicate Reaches(targets: map<string, CB.TargetConfig>, run: seq<Request>, t: string)
    requires run != []
  {
    Last(run).target == t && Known(targets, run, t)
  }

  /** The operations of a run that reach the breaker of `t`. */
  function Projection(targets: map<string, CB.TargetConfig>, run: seq<Request>, t: string): seq<CB.Op> {
    if run == [] then []
    else Projection(targets, Front(run), t) + (if Reaches(targets, run, t) then [Last(run).op] else [])
  }

  /** The answers that the callers of `t` got along a run. */
  function AnswersOf(targets: map<string, CB.TargetConfig>, run: seq<Request>, t: string): seq<Option<CB.Answer>> {
    if run == [] then []
    else
      AnswersOf(targets, Front(run), t)
      + (if Reaches(targets, run, t) then [Step(After(targets, Front(run)), Last(run)).1] else [])
  }

  function Somes<T>(s: seq<T>): seq<Option<T>> {
    seq(|s|, i requires 0 <= i < |s| => Some(s[i]))
  }

  /**
    An unconfigured target opens at five failures and closes at three successes of three probes after thirty
    seconds.
  */
  function ConfigOf(targets: map<string, CB.TargetConfig>, t: string): CB.TargetConfig {
    if t in targets then targets[t] else CB.TargetConfig(5, 3, 30_000_000_000, 3, None)
  }

  /** A request moves the slot of its own target by one breaker operation and no other slot. */
  lemma StepAt(slots: Slots, r: Request, t: string)
    ensures r.target == t && (r.Use? || t in slots)
        ==> t in Step(slots, r).0
            && var before := Ensured(slots, t)[t];
               var (inner, answer) := CB.Apply(before.config, before.inner, r.op);
               Step(slots, r).1 == Some(answer) && Step(slots, r).0[t] == Slot(before.config, inner)
    ensures !(r.target == t && (r.Use? || t in slots))
        ==> (t in Step(slots, r).0 <==> t in slots) && (t in slots ==> Step(slots, r).0[t] == slots[t])
  {
  }

  lemma SomesSnoc<T>(s: seq<T>, x: T)
    ensures Somes(s + [x]) == Somes(s) + [Some(x)]
  {
  }

  /** What a single breaker with the target's configuration has been through when the registry has run `run`. */
  ghost predicate Tracks(targets: map<string, CB.TargetConfig>, run: seq<Request>, t: string) {
    var cfg := ConfigOf(targets, t);
    var ops := Projection(targets, run, t);
    && (t in After(targets, run) <==> Known(targets, run, t))
    && (t in After(targets, run) ==> After(targets, run)[t] == Slot(cfg, CB.After(cfg, ops)))
    && (t !in After(targets, run) ==> ops == [])
    && AnswersOf(targets, run, t) == Somes(CB.Answers(cfg, ops))
  }

  lemma KnownSnoc(targets: map<string, CB.TargetConfig>, run: seq<Request>, t: string)
    requires run != []
    ensures Known(targets, run, t) <==> Known(targets, Front(run), t) || (Last(run).Use? && Last(run).target == t)
  {
    if Last(run).Use? && Last(run).target == t {
      assert run[|run| - 1].Use?;
    }
    assert forall i :: 0 <= i < |run| - 1 ==> Front(run)[i] == run[i];
  }

  lemma TracksReached(targets: map<string, CB.TargetConfig>, run: seq<Request>, t: string)
    requires run != [] && Reaches(targets, run, t) && Tracks(targets, Front(run), t)
    ensures Tracks(targets, run, t)
  {
    var cfg := ConfigOf(targets, t);
    var ops := Projection(targets, Front(run), t);
    var op := Last(run).op;
    KnownSnoc(targets, run, t);
    StepAt(After(targets, Front(run)), Last(run), t);
    CB.RunStep(cfg, ops, op);
    assert Front(ops + [op]) == ops;
    SomesSnoc(CB.Answers(cfg, ops), CB.AnswerTo(cfg, ops, op));
  }

  lemma TracksUnreached(targets: map<string, CB.TargetConfig>, run: seq<Request>, t: string)
    requires run != [] && !Reaches(targets, run, t) && Tracks(targets, Front(run), t)
    ensures Tracks(targets, run, t)
  {
    KnownSnoc(targets, run, t);
    StepAt(After(targets, Front(run)), Last(run), t);
    assert Projection(targets, run, t) == Projection(targets, Front(run), t);
    assert AnswersOf(targets, run, t) == AnswersOf(targets, Front(run), t);
  }

  /**
    Seen from one target, any interleaved run over the registry is a run of a single breaker with that
    target's configuration: same state, same answers. It is registered once configured or used with
    `get_or_default`, and a request that finds no breaker gets none and changes nothing.
  */
  lemma {:induction false} TargetsAreIndependent(targets: map<string, CB.TargetConfig>, run: seq<Request>, t: string)
    ensures var cfg := ConfigOf(targets, t);
            var ops := Projection(targets, run, t);
            && (t in After(targets, run) <==> Known(targets, run, t))
            && (t in After(targets, run) ==> After(targets, run)[t] == Slot(cfg, CB.After(cfg, ops)))
            && (t !in After(targets, run) ==> ops == [])
            && AnswersOf(targets, run, t) == Somes(CB.Answers(cfg, ops))
    ensures run != [] && Last(run).target == t && !Known(targets, run, t)
        ==> Step(After(targets, Front(run)), Last(run)) == (After(targets, Front(run)), None)
  {
    EveryRunTracks(targets, run, t);
    if run != [] {
      EveryRunTracks(targets, Front(run), t);
      KnownSnoc(targets, run, t);
    }
  }

  lemma {:induction false} EveryRunTracks(targets: map<string, CB.TargetConfig>, run: seq<Request>, t: string)
    ensures Tracks(targets, run, t)
  {
    if run != [] {
      EveryRunTracks(targets, Front(run), t);
      if Reaches(targets, run, t) {
        TracksReached(targets, run, t);
      } else {
        TracksUnreached(targets, run, t);
      }
    }
  }
}
