/**
  The request deduplication index under concurrent callers. The map and the queue sit under separate locks,
  so one `check_and_mark` is a sequence of steps that other callers and the background cleaner interleave
  with: reading the clock, each map operation, `len`, the sequence counter and the queue mutex are atomic on
  their own.
*/
module InterleavedTracker {
  import opened Core
  import opened RequestTracker

  /**
    Where a caller stands; `now` is the instant it read on entry, `at` the one it read to drop expired entries.
    The three `Evict` points hold the queue mutex.
  */
  datatype Pc =
    | Idle
    | AtGet(key: string, now: nat)
    | AtRemove(key: string, now: nat)
    | AtLen(key: string, now: nat)
    | AtCleanup(key: string, now: nat)
    | AtRetain(key: string, now: nat, at: nat)
    | AtLenAgain(key: string, now: nat)
    | AtLock(key: string, now: nat)
    | EvictPop(key: string, now: nat)
    | EvictLookup(key: string, now: nat, popped: Record)
    | EvictRemove(key: string, now: nat, popped: Record)
    | AtFetch(key: string, now: nat)
    | AtInsert(key: string, now: nat, seqNo: nat)
    | AtPush(key: string, now: nat, seqNo: nat)

  datatype System = System(ix: Index, holder: Option<nat>, pcs: seq<Pc>)

  datatype Action = Call(p: nat, key: string, now: nat) | Advance(p: nat, now: nat) | Clean(now: nat)

  function Start(callers: nat): System {
    System(EMPTY, None, seq(callers, _ => Idle))
  }

  function Goto(s: System, p: nat, pc: Pc): System
    requires p < |s.pcs|
  {
    s.(pcs := s.pcs[p := pc])
  }

  function WithEntries(s: System, tracker: Entries): System {
    s.(ix := s.ix.(tracker := tracker))
  }

  /** The next step of caller `p`; `now` is what the clock reads if the step reads it. */
  function Advanced(lim: Limits, s: System, p: nat, now: nat): System
    requires p < |s.pcs|
  {
    var tracker, order := s.ix.tracker, s.ix.order;
    match s.pcs[p]
    case Idle => s
    case AtGet(k, t) =>
      Goto(s, p, if IsDuplicate(tracker, k, t) then Idle else if k in tracker then AtRemove(k, t) else AtLen(k, t))
    case AtRemove(k, t) => Goto(WithEntries(s, Without(tracker, k)), p, AtLen(k, t))
    case AtLen(k, t) => Goto(s, p, if |tracker| >= lim.maxEntries then AtCleanup(k, t) else AtFetch(k, t))
    case AtCleanup(k, t) => Goto(s, p, AtRetain(k, t, now))
    case AtRetain(k, t, at) => Goto(WithEntries(s, Retained(tracker, at)), p, AtLenAgain(k, t))
    case AtLenAgain(k, t) => Goto(s, p, if |tracker| >= lim.maxEntries then AtLock(k, t) else AtFetch(k, t))
    case AtLock(k, t) => if s.holder.Some? then s else Goto(s.(holder := Some(p)), p, EvictPop(k, t))
    case EvictPop(k, t) =>
      if order == [] then Goto(s.(holder := None), p, AtFetch(k, t))
      else Goto(s.(ix := s.ix.(order := order[1..])), p, EvictLookup(k, t, order[0]))
    case EvictLookup(k, t, r) => Goto(s, p, if IsCurrent(tracker, r) then EvictRemove(k, t, r) else EvictPop(k, t))
    case EvictRemove(k, t, r) => Goto(WithEntries(s, Without(tracker, r.key)).(holder := None), p, AtFetch(k, t))
    case AtFetch(k, t) => Goto(s.(ix := s.ix.(next := s.ix.next + 1)), p, AtInsert(k, t, s.ix.next))
    case AtInsert(k, t, n) => Goto(WithEntries(s, tracker[k := Entry(t + lim.ttl, n)]), p, AtPush(k, t, n))
    case AtPush(k, t, n) =>
      if s.holder.Some? then s else Goto(s.(ix := s.ix.(order := order + [Record(n, k)])), p, Idle)
  }

  /** One step of the whole system; an action that is not possible leaves it as it is. */
  function Step(lim: Limits, s: System, a: Action): System {
    match a
    case Call(p, key, now) =>
      if p < |s.pcs| && s.pcs[p] == Idle then Goto(s, p, AtGet(key, now)) else s
    case Advance(p, now) => if p < |s.pcs| then Advanced(lim, s, p, now) else s
    case Clean(now) => WithEntries(s, Retained(s.ix.tracker, now))
  }

  function Resume(lim: Limits, s: System, run: seq<Action>): System
    decreases |run|
  {
    if run == [] then s else Resume(lim, Step(lim, s, run[0]), run[1..])
  }

  // ----- The invariant -----

  predicate Holds(pc: Pc) {
    pc.EvictPop? || pc.EvictLookup? || pc.EvictRemove?
  }

  /** The caller will push this record, or has popped it and not yet dealt with it. */
  predicate Carries(pc: Pc, r: Record) {
    (pc.AtPush? && Record(pc.seqNo, pc.key) == r) || ((pc.EvictLookup? || pc.EvictRemove?) && pc.popped == r)
  }

  ghost predicate MutexOwned(s: System) {
    && (s.holder.Some? ==> s.holder.value < |s.pcs|)
    && forall p :: 0 <= p < |s.pcs| ==> (Holds(s.pcs[p]) <==> s.holder == Some(p))
  }

  ghost predicate Accounted(s: System, r: Record) {
    r in s.ix.order || exists p :: 0 <= p < |s.pcs| && Carries(s.pcs[p], r)
  }

  /** Every entry's record is queued, awaiting its inserter's push, or claimed by the evictor. */
  ghost predicate RecordsAccounted(s: System) {
    forall k :: k in s.ix.tracker ==> Accounted(s, Record(s.ix.tracker[k].seqNo, k))
  }

  /** Callers that will insert without looking at the size again. */
  function Ready(pcs: seq<Pc>): set<nat> {
    set p: nat | p < |pcs| && (pcs[p].AtFetch? || pcs[p].AtInsert?)
  }

  /** The evictor owes nothing unless the entry it is about to remove has already gone. */
  function Debt(s: System): nat {
    if s.holder.Some? && s.holder.value < |s.pcs| && s.pcs[s.holder.value].EvictRemove?
       && s.pcs[s.holder.value].popped.key !in s.ix.tracker
    then 1 else 0
  }

  function Bound(lim: Limits, callers: nat): int {
    Capacity(lim) + callers - 1
  }

  /** Entries, callers bound to insert and the evictor's debt together: this is what no step can push over the bound. */
  ghost predicate Counted(lim: Limits, s: System) {
    |s.ix.tracker| + |Ready(s.pcs)| + Debt(s) <= Bound(lim, |s.pcs|)
  }

  ghost predicate Inv(lim: Limits, s: System) {
    && MutexOwned(s)
    && RecordsAccounted(s)
    && Counted(lim, s)
  }

  // ----- Counting -----

  lemma {:induction false} BelowCount(s: set<nat>, n: nat)
    requires forall p :: p in s ==> p < n
    ensures |s| <= n
  {
    if n > 0 {
      BelowCount(s - {n - 1}, n - 1);
    } else {
      assert s == {};
    }
  }

  lemma ReadyMoved(pcs: seq<Pc>, p: nat, pc: Pc)
    requires p < |pcs|
    ensures Ready(pcs[p := pc]) == if pc.AtFetch? || pc.AtInsert? then Ready(pcs) + {p} else Ready(pcs) - {p}
  {
  }

  /** The callers bound to insert, the evictor, and `others` disjoint from them are at most all callers. */
  lemma DisjointCallers(s: System, others: set<nat>)
    requires MutexOwned(s)
    requires forall p :: p in others ==> p < |s.pcs| && p !in Ready(s.pcs) && s.holder != Some(p)
    ensures |others| + |Ready(s.pcs)| + Debt(s) <= |s.pcs|
  {
    var evictor := if Debt(s) == 1 then {s.holder.value} else {};
    assert |Ready(s.pcs) + evictor| == |Ready(s.pcs)| + |evictor|;
    assert |others + (Ready(s.pcs) + evictor)| == |others| + |Ready(s.pcs) + evictor|;
    BelowCount(others + (Ready(s.pcs) + evictor), |s.pcs|);
  }

  function Pushers(pcs: seq<Pc>): set<nat> {
    set p: nat | p < |pcs| && pcs[p].AtPush?
  }

  /** When every entry awaits its inserter's push, there are at most as many entries as callers about to push. */
  lemma {:induction false} EntriesByPushers(tracker: Entries, pcs: seq<Pc>, pushers: set<nat>)
    requires forall p :: p in pushers ==> p < |pcs|
    requires forall k :: k in tracker ==>
               exists p :: p in pushers && Carries(pcs[p], Record(tracker[k].seqNo, k)) && pcs[p].AtPush?
    ensures |tracker| <= |pushers|
  {
    if tracker != map[] {
      var k :| k in tracker;
      var p :| p in pushers && Carries(pcs[p], Record(tracker[k].seqNo, k)) && pcs[p].AtPush?;
      var rest := Without(tracker, k);
      forall j | j in rest
        ensures exists q :: q in pushers - {p} && Carries(pcs[q], Record(rest[j].seqNo, j)) && pcs[q].AtPush?
      {
        var q :| q in pushers && Carries(pcs[q], Record(tracker[j].seqNo, j)) && pcs[q].AtPush?;
        assert q in pushers - {p};
      }
      EntriesByPushers(rest, pcs, pushers - {p});
    }
  }

  // ----- Every step keeps the invariant -----

  lemma MutexKept(lim: Limits, s: System, p: nat, now: nat)
    requires MutexOwned(s) && p < |s.pcs|
    ensures MutexOwned(Advanced(lim, s, p, now))
  {
  }

  /** A record stays accounted for when one caller moves, if that caller and the queue do not lose it. */
  lemma AccountedKept(s: System, t: System, p: nat, r: Record)
    requires Accounted(s, r) && p < |s.pcs| == |t.pcs|
    requires forall q :: 0 <= q < |s.pcs| && q != p ==> t.pcs[q] == s.pcs[q]
    requires r in s.ix.order || Carries(s.pcs[p], r) ==> r in t.ix.order || Carries(t.pcs[p], r)
    ensures Accounted(t, r)
  {
    if r !in s.ix.order {
      var q :| 0 <= q < |s.pcs| && Carries(s.pcs[q], r);
      if q != p {
        assert Carries(t.pcs[q], r);
      }
    }
  }

  lemma RecordsKept(lim: Limits, s: System, p: nat, now: nat)
    requires MutexOwned(s) && RecordsAccounted(s) && p < |s.pcs|
    ensures RecordsAccounted(Advanced(lim, s, p, now))
  {
    var t := Advanced(lim, s, p, now);
    forall k | k in t.ix.tracker ensures Accounted(t, Record(t.ix.tracker[k].seqNo, k)) {
      var r := Record(t.ix.tracker[k].seqNo, k);
      if s.pcs[p].AtInsert? && k == s.pcs[p].key {
        assert Carries(t.pcs[p], r);
      } else {
        assert k in s.ix.tracker && t.ix.tracker[k] == s.ix.tracker[k];
        if r in s.ix.order && s.pcs[p].EvictPop? {
          assert r == s.ix.order[0] || r in s.ix.order[1..];
        }
        AccountedKept(s, t, p, r);
      }
    }
  }

  /** With the queue empty and the mutex held at the pop, every entry awaits its inserter's push. */
  lemma EmptyQueueEntries(s: System, p: nat)
    requires MutexOwned(s) && RecordsAccounted(s) && p < |s.pcs| && s.pcs[p].EvictPop? && s.ix.order == []
    ensures |s.ix.tracker| <= |Pushers(s.pcs)|
  {
    forall k | k in s.ix.tracker
      ensures exists q :: q in Pushers(s.pcs) && Carries(s.pcs[q], Record(s.ix.tracker[k].seqNo, k)) && s.pcs[q].AtPush?
    {
      var r := Record(s.ix.tracker[k].seqNo, k);
      assert Accounted(s, r);
      var q :| 0 <= q < |s.pcs| && Carries(s.pcs[q], r);
      assert q in Pushers(s.pcs);
    }
    EntriesByPushers(s.ix.tracker, s.pcs, Pushers(s.pcs));
  }

  lemma EmptyQueueCount(lim: Limits, s: System, p: nat, now: nat)
    requires MutexOwned(s) && RecordsAccounted(s) && p < |s.pcs| && s.pcs[p].EvictPop? && s.ix.order == []
    ensures Counted(lim, Advanced(lim, s, p, now))
  {
    var t := Advanced(lim, s, p, now);
    EmptyQueueEntries(s, p);
    MutexKept(lim, s, p, now);
    assert Pushers(t.pcs) == Pushers(s.pcs);
    DisjointCallers(t, Pushers(t.pcs));
  }

  /** Fewer entries, at most one of them the one the evictor claims, never raise the total. */
  lemma RemovalCount(s: System, tracker: Entries)
    requires tracker.Keys <= s.ix.tracker.Keys
    ensures |tracker| + Debt(WithEntries(s, tracker)) <= |s.ix.tracker| + Debt(s)
  {
    Subset(tracker.Keys, s.ix.tracker.Keys);
    if Debt(WithEntries(s, tracker)) > Debt(s) {
      var k := s.pcs[s.holder.value].popped.key;
      Subset(tracker.Keys, s.ix.tracker.Keys - {k});
    }
  }

  /** A caller that found the map below capacity may insert: the others are at most all but one. */
  lemma SawRoom(lim: Limits, s: System, p: nat, pc: Pc)
    requires MutexOwned(s) && p < |s.pcs| && !Holds(s.pcs[p])
    requires pc.AtFetch? && |s.ix.tracker| < lim.maxEntries
    ensures Counted(lim, Goto(s, p, pc))
  {
    var t := Goto(s, p, pc);
    ReadyMoved(s.pcs, p, pc);
    DisjointCallers(t, {});
  }

  /** Dropping entries on the way to another point that is neither bound to insert nor about to remove. */
  lemma RemovalKept(lim: Limits, s: System, p: nat, tracker: Entries, pc: Pc)
    requires Inv(lim, s) && p < |s.pcs| && tracker.Keys <= s.ix.tracker.Keys
    requires !Holds(s.pcs[p]) && !Holds(pc) && !pc.AtFetch? && !pc.AtInsert?
    ensures Counted(lim, Goto(WithEntries(s, tracker), p, pc))
  {
    ReadyMoved(s.pcs, p, pc);
    Subset(Ready(s.pcs) - {p}, Ready(s.pcs));
    RemovalCount(s, tracker);
    assert Debt(Goto(WithEntries(s, tracker), p, pc)) == Debt(WithEntries(s, tracker));
  }

  /** The evictor's removal either frees a place or settles its debt, and then it is bound to insert. */
  lemma EvictionKept(lim: Limits, s: System, p: nat, now: nat)
    requires Inv(lim, s) && p < |s.pcs| && s.pcs[p].EvictRemove?
    ensures Counted(lim, Advanced(lim, s, p, now))
  {
    var key := s.pcs[p].popped.key;
    ReadyMoved(s.pcs, p, AtFetch(s.pcs[p].key, s.pcs[p].now));
    assert Without(s.ix.tracker, key).Keys == s.ix.tracker.Keys - {key};
    if key in s.ix.tracker {
      assert |s.ix.tracker.Keys - {key}| == |s.ix.tracker.Keys| - 1;
    }
  }

  /** Inserting spends the caller's place, and settles the debt if it restores the entry the evictor claims. */
  lemma InsertKept(lim: Limits, s: System, p: nat, now: nat)
    requires Inv(lim, s) && p < |s.pcs| && s.pcs[p].AtInsert?
    ensures Counted(lim, Advanced(lim, s, p, now))
  {
    var t := Advanced(lim, s, p, now);
    ReadyMoved(s.pcs, p, t.pcs[p]);
    assert p in Ready(s.pcs);
    assert |Ready(s.pcs) - {p}| == |Ready(s.pcs)| - 1;
    assert t.ix.tracker.Keys == s.ix.tracker.Keys + {s.pcs[p].key};
    assert Debt(t) <= Debt(s);
  }

  lemma ReadyUnmoved(pcs: seq<Pc>, p: nat, pc: Pc)
    requires p < |pcs| && (pcs[p].AtFetch? || pcs[p].AtInsert? <==> pc.AtFetch? || pc.AtInsert?)
    ensures Ready(pcs[p := pc]) == Ready(pcs)
  {
  }

  /** Taking the mutex, popping a record and looking it up change no count. */
  lemma EvictorMoved(lim: Limits, s: System, p: nat, now: nat)
    requires MutexOwned(s) && Counted(lim, s) && p < |s.pcs|
    requires s.pcs[p].AtLock? || (s.pcs[p].EvictPop? && s.ix.order != []) || s.pcs[p].EvictLookup?
    ensures Counted(lim, Advanced(lim, s, p, now))
  {
    var t := Advanced(lim, s, p, now);
    ReadyUnmoved(s.pcs, p, t.pcs[p]);
    assert t.pcs == s.pcs[p := t.pcs[p]];
    if t.pcs != s.pcs {
      assert t.holder == Some(p) && Debt(t) == 0;
    }
  }

  lemma InserterMoved(lim: Limits, s: System, p: nat, now: nat)
    requires MutexOwned(s) && Counted(lim, s) && p < |s.pcs| && (s.pcs[p].AtFetch? || s.pcs[p].AtPush?)
    ensures Counted(lim, Advanced(lim, s, p, now))
  {
    var t := Advanced(lim, s, p, now);
    ReadyUnmoved(s.pcs, p, t.pcs[p]);
    assert t.pcs == s.pcs[p := t.pcs[p]];
    assert s.holder != Some(p) && Debt(t) == Debt(s);
  }

  lemma CountKept(lim: Limits, s: System, p: nat, now: nat)
    requires Inv(lim, s) && p < |s.pcs|
    ensures Counted(lim, Advanced(lim, s, p, now))
  {
    var tracker := s.ix.tracker;
    match s.pcs[p]
    case Idle =>
    case AtGet(_, _) => RemovalKept(lim, s, p, tracker, Advanced(lim, s, p, now).pcs[p]);
    case AtRemove(k, t) => RemovalKept(lim, s, p, Without(tracker, k), AtLen(k, t));
    case AtLen(k, t) =>
      if |tracker| < lim.maxEntries { SawRoom(lim, s, p, AtFetch(k, t)); }
      else { RemovalKept(lim, s, p, tracker, AtCleanup(k, t)); }
    case AtCleanup(k, t) => RemovalKept(lim, s, p, tracker, AtRetain(k, t, now));
    case AtRetain(k, t, at) => RemovalKept(lim, s, p, Retained(tracker, at), AtLenAgain(k, t));
    case AtLenAgain(k, t) =>
      if |tracker| < lim.maxEntries { SawRoom(lim, s, p, AtFetch(k, t)); }
      else { RemovalKept(lim, s, p, tracker, AtLock(k, t)); }
    case EvictPop(_, _) =>
      if s.ix.order == [] { EmptyQueueCount(lim, s, p, now); } else { EvictorMoved(lim, s, p, now); }
    case EvictRemove(_, _, _) => EvictionKept(lim, s, p, now);
    case AtInsert(_, _, _) => InsertKept(lim, s, p, now);
    case AtFetch(_, _) => InserterMoved(lim, s, p, now);
    case AtPush(_, _, _) => InserterMoved(lim, s, p, now);
    case _ => EvictorMoved(lim, s, p, now);
  }

  lemma CallKeepsInv(lim: Limits, s: System, p: nat, key: string, now: nat)
    requires Inv(lim, s)
    ensures Inv(lim, Step(lim, s, Call(p, key, now)))
  {
    var t := Step(lim, s, Call(p, key, now));
    if t != s {
      RemovalKept(lim, s, p, s.ix.tracker, t.pcs[p]);
      forall k | k in t.ix.tracker ensures Accounted(t, Record(t.ix.tracker[k].seqNo, k)) {
        AccountedKept(s, t, p, Record(s.ix.tracker[k].seqNo, k));
      }
    }
  }

  lemma CleanKeepsInv(lim: Limits, s: System, now: nat)
    requires Inv(lim, s)
    ensures Inv(lim, Step(lim, s, Clean(now)))
  {
    var t := Step(lim, s, Clean(now));
    RemovalCount(s, t.ix.tracker);
    forall k | k in t.ix.tracker ensures Accounted(t, Record(t.ix.tracker[k].seqNo, k)) {
      assert Accounted(s, Record(s.ix.tracker[k].seqNo, k));
    }
  }

  lemma {:induction false} AdvanceKeepsInv(lim: Limits, s: System, p: nat, now: nat)
    requires Inv(lim, s) && p < |s.pcs|
    ensures Inv(lim, Advanced(lim, s, p, now))
  {
    MutexKept(lim, s, p, now);
    RecordsKept(lim, s, p, now);
    CountKept(lim, s, p, now);
  }

  lemma SameCallers(lim: Limits, s: System, a: Action)
    ensures |Step(lim, s, a).pcs| == |s.pcs|
  {
  }

  lemma {:induction false} StepKeepsInv(lim: Limits, s: System, a: Action)
    requires Inv(lim, s)
    ensures Inv(lim, Step(lim, s, a))
  {
    match a
    case Call(p, key, now) => CallKeepsInv(lim, s, p, key, now);
    case Advance(p, now) => if p < |s.pcs| { AdvanceKeepsInv(lim, s, p, now); }
    case Clean(now) => CleanKeepsInv(lim, s, now);
  }

  lemma {:induction false} RunKeepsInv(lim: Limits, s: System, run: seq<Action>)
    requires Inv(lim, s)
    ensures Inv(lim, Resume(lim, s, run)) && |Resume(lim, s, run).pcs| == |s.pcs|
    decreases |run|
  {
    if run != [] {
      StepKeepsInv(lim, s, run[0]);
      SameCallers(lim, s, run[0]);
      RunKeepsInv(lim, Step(lim, s, run[0]), run[1..]);
    }
  }

  lemma StartInv(lim: Limits, callers: nat)
    ensures Inv(lim, Start(callers))
  {
    assert Ready(Start(callers).pcs) == {};
  }

  /**
    Bounded overshoot: however the steps of `callers` callers and of the background cleaner interleave, the
    map never holds more than `max(1, max_entries) + callers - 1` entries, and every entry's record is queued
    or in the hands of a caller.
  */
  lemma BoundedOvershoot(lim: Limits, callers: nat, run: seq<Action>)
    ensures |Resume(lim, Start(callers), run).ix.tracker| <= Bound(lim, callers)
    ensures RecordsAccounted(Resume(lim, Start(callers), run))
  {
    StartInv(lim, callers);
    RunKeepsInv(lim, Start(callers), run);
  }

  // ----- A caller left alone is the sequential operation -----

  function Advances(p: nat, now: nat, n: nat): seq<Action> {
    if n == 0 then [] else [Advance(p, now)] + Advances(p, now, n - 1)
  }

  /** Some number of steps of `p` alone takes the system from `s` to `t`. */
  ghost predicate Leads(lim: Limits, p: nat, now: nat, s: System, t: System) {
    exists n: nat :: Resume(lim, s, Advances(p, now, n)) == t
  }

  lemma LeadsToItself(lim: Limits, p: nat, now: nat, s: System)
    ensures Leads(lim, p, now, s, s)
  {
    assert Resume(lim, s, Advances(p, now, 0)) == s;
  }

  lemma StepLeads(lim: Limits, p: nat, now: nat, s: System, t: System)
    requires p < |s.pcs| && Leads(lim, p, now, Advanced(lim, s, p, now), t)
    ensures Leads(lim, p, now, s, t)
  {
    var n: nat :| Resume(lim, Advanced(lim, s, p, now), Advances(p, now, n)) == t;
    var run := Advances(p, now, n + 1);
    assert run[0] == Advance(p, now) && run[1..] == Advances(p, now, n);
    assert Resume(lim, s, run) == t;
  }

  /** The system once `p` has entered its mark and gone idle. */
  function Landed(lim: Limits, s: System, p: nat, tracker: Entries, order: seq<Record>, key: string, now: nat): System
    requires p < |s.pcs|
  {
    var n := s.ix.next;
    var marked := Index(tracker[key := Entry(now + lim.ttl, n)], order + [Record(n, key)], n + 1);
    System(marked, None, s.pcs[p := Idle])
  }

  lemma FetchLands(lim: Limits, s: System, p: nat, key: string, t: nat, now: nat)
    requires p < |s.pcs| && s.pcs[p] == AtFetch(key, t) && s.holder == None
    ensures Leads(lim, p, now, s, Landed(lim, s, p, s.ix.tracker, s.ix.order, key, t))
  {
    var inserting := Advanced(lim, s, p, now);
    var pushing := Advanced(lim, inserting, p, now);
    var end := Advanced(lim, pushing, p, now);
    assert end == Landed(lim, s, p, s.ix.tracker, s.ix.order, key, t);
    LeadsToItself(lim, p, now, end);
    StepLeads(lim, p, now, pushing, end);
    StepLeads(lim, p, now, inserting, end);
    StepLeads(lim, p, now, s, end);
  }

  lemma {:induction false} EvictionLands(lim: Limits, s: System, p: nat, key: string, t: nat, now: nat)
    requires p < |s.pcs| && s.pcs[p] == EvictPop(key, t) && s.holder == Some(p)
    ensures var (tracker, order, _) := Evict(s.ix.tracker, s.ix.order);
            Leads(lim, p, now, s, Landed(lim, s, p, tracker, order, key, t))
    decreases |s.ix.order|
  {
    var (tracker, order, _) := Evict(s.ix.tracker, s.ix.order);
    var end := Landed(lim, s, p, tracker, order, key, t);
    var popped := Advanced(lim, s, p, now);
    if s.ix.order == [] {
      FetchLands(lim, popped, p, key, t, now);
    } else {
      var looked := Advanced(lim, popped, p, now);
      if IsCurrent(s.ix.tracker, s.ix.order[0]) {
        var removed := Advanced(lim, looked, p, now);
        FetchLands(lim, removed, p, key, t, now);
        assert Landed(lim, removed, p, tracker, order, key, t) == end;
        StepLeads(lim, p, now, looked, end);
      } else {
        EvictionLands(lim, looked, p, key, t, now);
        assert Landed(lim, looked, p, tracker, order, key, t) == end;
      }
      StepLeads(lim, p, now, popped, end);
    }
    StepLeads(lim, p, now, s, end);
  }

  lemma LenLands(lim: Limits, s: System, p: nat, key: string, t: nat, now: nat)
    requires p < |s.pcs| && s.pcs[p] == AtLen(key, t) && s.holder == None
    ensures var (tracker, order, _) := MadeRoom(lim, s.ix.tracker, s.ix.order, now);
            Leads(lim, p, now, s, Landed(lim, s, p, tracker, order, key, t))
  {
    var (tracker, order, _) := MadeRoom(lim, s.ix.tracker, s.ix.order, now);
    var end := Landed(lim, s, p, tracker, order, key, t);
    var next := Advanced(lim, s, p, now);
    if |s.ix.tracker| < lim.maxEntries {
      FetchLands(lim, next, p, key, t, now);
      assert Landed(lim, next, p, tracker, order, key, t) == end;
    } else {
      var dropping := Advanced(lim, next, p, now);
      var again := Advanced(lim, dropping, p, now);
      var decided := Advanced(lim, again, p, now);
      if |again.ix.tracker| < lim.maxEntries {
        FetchLands(lim, decided, p, key, t, now);
        assert Landed(lim, decided, p, tracker, order, key, t) == end;
      } else {
        var locked := Advanced(lim, decided, p, now);
        EvictionLands(lim, locked, p, key, t, now);
        assert Landed(lim, locked, p, tracker, order, key, t) == end;
        StepLeads(lim, p, now, decided, end);
      }
      StepLeads(lim, p, now, again, end);
      StepLeads(lim, p, now, dropping, end);
      StepLeads(lim, p, now, next, end);
    }
    StepLeads(lim, p, now, s, end);
  }

  /** The steps after a lookup that finds no unexpired entry. */
  lemma LookupLands(lim: Limits, s: System, p: nat, key: string, t: nat, now: nat)
    requires p < |s.pcs| && s.pcs[p] == AtGet(key, t) && s.holder == None && !IsDuplicate(s.ix.tracker, key, t)
    ensures var (tracker, order, _) := MadeRoom(lim, Without(s.ix.tracker, key), s.ix.order, now);
            Leads(lim, p, now, s, Landed(lim, s, p, tracker, order, key, t))
  {
    var (tracker, order, _) := MadeRoom(lim, Without(s.ix.tracker, key), s.ix.order, now);
    var looked, end := Advanced(lim, s, p, now), Landed(lim, s, p, tracker, order, key, t);
    if key in s.ix.tracker {
      var removed := Advanced(lim, looked, p, now);
      LenLands(lim, removed, p, key, t, now);
      assert Landed(lim, removed, p, tracker, order, key, t) == end;
      StepLeads(lim, p, now, looked, end);
    } else {
      LenLands(lim, looked, p, key, t, now);
      assert Landed(lim, looked, p, tracker, order, key, t) == end;
    }
    StepLeads(lim, p, now, s, end);
  }

  /**
    Whatever the others are in the middle of, as long as they stay still and nobody holds the mutex, one
    caller's steps take the index exactly where the sequential `check_and_mark` does.
  */
  lemma SoloCallIsSequential(lim: Limits, s: System, p: nat, key: string, now: nat, later: nat)
    requires p < |s.pcs| && s.pcs[p] == Idle && s.holder == None
    ensures Leads(lim, p, later, Step(lim, s, Call(p, key, now)),
                  s.(ix := CheckedAndMarked(lim, s.ix, key, now, later).0))
  {
    var called := Step(lim, s, Call(p, key, now));
    var end := s.(ix := CheckedAndMarked(lim, s.ix, key, now, later).0);
    if IsDuplicate(s.ix.tracker, key, now) {
      assert Advanced(lim, called, p, later) == s;
      LeadsToItself(lim, p, later, s);
      StepLeads(lim, p, later, called, s);
    } else {
      var (tracker, order, _) := MadeRoom(lim, Without(s.ix.tracker, key), s.ix.order, later);
      assert end == Landed(lim, called, p, tracker, order, key, now);
      LookupLands(lim, called, p, key, now, later);
    }
  }

  // ----- The bound is reached, and checking and marking is not one step -----

  ghost predicate Reaches(lim: Limits, s: System, t: System) {
    exists run :: Resume(lim, s, run) == t
  }

  lemma {:induction false} ResumeConcat(lim: Limits, s: System, a: seq<Action>, b: seq<Action>)
    ensures Resume(lim, s, a + b) == Resume(lim, Resume(lim, s, a), b)
    decreases |a|
  {
    if a == [] {
      assert a + b == b;
    } else {
      assert (a + b)[1..] == a[1..] + b;
      ResumeConcat(lim, Step(lim, s, a[0]), a[1..], b);
    }
  }

  lemma ResumeOne(lim: Limits, s: System, a: Action)
    ensures Resume(lim, s, [a]) == Step(lim, s, a)
  {
    assert [a][1..] == [];
  }

  lemma ReachesOne(lim: Limits, s: System, a: Action)
    ensures Reaches(lim, s, Step(lim, s, a))
  {
    ResumeOne(lim, s, a);
  }

  lemma ReachesOn(lim: Limits, s: System, t: System, u: System)
    requires Reaches(lim, s, t) && Reaches(lim, t, u)
    ensures Reaches(lim, s, u)
  {
    var a :| Resume(lim, s, a) == t;
    var b :| Resume(lim, t, b) == u;
    ResumeConcat(lim, s, a, b);
    assert Resume(lim, s, a + b) == u;
  }

  lemma ReachesTwo(lim: Limits, s: System, a: Action, b: Action)
    ensures Reaches(lim, s, Step(lim, Step(lim, s, a), b))
  {
    var run := [a, b];
    assert run[1..] == [b] && [b][1..] == [];
    assert Resume(lim, Step(lim, s, a), [b]) == Step(lim, Step(lim, s, a), b);
    assert Resume(lim, s, run) == Step(lim, Step(lim, s, a), b);
  }

  /** A step that only takes the caller from one point to another. */
  lemma MovesOn(lim: Limits, s: System, p: nat, from: Pc, to: Pc, now: nat)
    requires p < |s.pcs| && Reaches(lim, s, Goto(s, p, from))
    requires Advanced(lim, Goto(s, p, from), p, now) == Goto(Goto(s, p, from), p, to)
    ensures Reaches(lim, s, Goto(s, p, to))
  {
    ReachesOne(lim, Goto(s, p, from), Advance(p, now));
    assert Goto(Goto(s, p, from), p, to) == Goto(s, p, to);
    ReachesOn(lim, s, Goto(s, p, from), Goto(s, p, to));
  }

  /** A caller that does not find its id. */
  lemma FindsFresh(lim: Limits, s: System, p: nat, key: string, now: nat)
    requires p < |s.pcs| && s.pcs[p] == Idle && key !in s.ix.tracker
    ensures Reaches(lim, s, Goto(s, p, AtLen(key, now)))
  {
    ReachesTwo(lim, s, Call(p, key, now), Advance(p, now));
    assert Goto(Goto(s, p, AtGet(key, now)), p, AtLen(key, now)) == Goto(s, p, AtLen(key, now));
  }

  /** A caller that finds room for a fresh id, and stops just before inserting it. */
  lemma FindsRoom(lim: Limits, s: System, p: nat, key: string, now: nat)
    requires p < |s.pcs| && s.pcs[p] == Idle && key !in s.ix.tracker && |s.ix.tracker| < lim.maxEntries
    ensures Reaches(lim, s, Goto(s, p, AtFetch(key, now)))
  {
    FindsFresh(lim, s, p, key, now);
    MovesOn(lim, s, p, AtLen(key, now), AtFetch(key, now), now);
  }

  /** With no capacity at all a caller sets about evicting, even from an empty map. */
  lemma FindsNoCapacity(lim: Limits, s: System, p: nat, key: string, now: nat)
    requires p < |s.pcs| && s.pcs[p] == Idle && s.ix.tracker == map[] && lim.maxEntries == 0
    ensures Reaches(lim, s, Goto(s, p, AtLock(key, now)))
  {
    assert Retained(s.ix.tracker, now) == s.ix.tracker;
    FindsFresh(lim, s, p, key, now);
    MovesOn(lim, s, p, AtLen(key, now), AtCleanup(key, now), now);
    MovesOn(lim, s, p, AtCleanup(key, now), AtRetain(key, now, now), now);
    MovesOn(lim, s, p, AtRetain(key, now, now), AtLenAgain(key, now), now);
    MovesOn(lim, s, p, AtLenAgain(key, now), AtLock(key, now), now);
  }

  /** And a caller that finds nothing to evict inserts all the same. */
  lemma FindsNothing(lim: Limits, s: System, p: nat, key: string, now: nat)
    requires p < |s.pcs| && s.pcs[p] == Idle && s.ix.tracker == map[] && s.ix.order == [] && s.holder == None
    requires lim.maxEntries == 0
    ensures Reaches(lim, s, Goto(s, p, AtFetch(key, now)))
  {
    var locking, popping := Goto(s, p, AtLock(key, now)), Goto(s.(holder := Some(p)), p, EvictPop(key, now));
    FindsNoCapacity(lim, s, p, key, now);
    ReachesTwo(lim, locking, Advance(p, now), Advance(p, now));
    assert Goto(locking.(holder := Some(p)), p, EvictPop(key, now)) == popping;
    assert Goto(popping.(holder := None), p, AtFetch(key, now)) == Goto(s, p, AtFetch(key, now));
    ReachesOn(lim, s, locking, Goto(s, p, AtFetch(key, now)));
  }

  /** On a fresh index every idle caller gets as far as inserting, whatever the capacity. */
  lemma FreshIndexLetsIn(lim: Limits, s: System, p: nat, key: string, now: nat)
    requires p < |s.pcs| && s.pcs[p] == Idle && s.ix == EMPTY && s.holder == None
    ensures Reaches(lim, s, Goto(s, p, AtFetch(key, now)))
  {
    if lim.maxEntries == 0 {
      FindsNothing(lim, s, p, key, now);
    } else {
      FindsRoom(lim, s, p, key, now);
    }
  }

  /** The index with an entry whose record has not been pushed yet. */
  function Entered(lim: Limits, s: System, key: string, now: nat): System {
    s.(ix := Index(s.ix.tracker[key := Entry(now + lim.ttl, s.ix.next)], s.ix.order, s.ix.next + 1))
  }

  lemma Inserts(lim: Limits, s: System, p: nat, key: string, now: nat)
    requires p < |s.pcs| && s.pcs[p] == AtFetch(key, now)
    ensures Reaches(lim, s, Goto(Entered(lim, s, key, now), p, AtPush(key, now, s.ix.next)))
  {
    ReachesTwo(lim, s, Advance(p, now), Advance(p, now));
  }

  /** `m` entries, with ids shorter than `m`. */
  ghost predicate Holding(s: System, m: nat) {
    |s.ix.tracker| == m && forall k :: k in s.ix.tracker ==> |k| < m
  }

  lemma EnterOne(lim: Limits, s: System, m: nat, now: nat)
    requires Holding(s, m)
    ensures Holding(Entered(lim, s, Name(m), now), m + 1)
  {
    assert Entered(lim, s, Name(m), now).ix.tracker.Keys == s.ix.tracker.Keys + {Name(m)};
  }

  /** The first caller enters one more id. */
  lemma FillOne(lim: Limits, s: System, m: nat) returns (t: System)
    requires s.pcs != [] && s.pcs[0] == Idle && s.holder == None && Holding(s, m) && m < lim.maxEntries
    ensures Reaches(lim, s, t) && Holding(t, m + 1) && t.pcs == s.pcs && t.holder == None
  {
    var key := Name(m);
    FindsRoom(lim, s, 0, key, 0);
    var found := Goto(s, 0, AtFetch(key, 0));
    FetchLands(lim, found, 0, key, 0, 0);
    t := Landed(lim, found, 0, found.ix.tracker, found.ix.order, key, 0);
    EnterOne(lim, s, m, 0);
    assert t.ix.tracker == Entered(lim, s, key, 0).ix.tracker;
    var n: nat :| Resume(lim, found, Advances(0, 0, n)) == t;
    ReachesOn(lim, s, found, t);
  }

  /** One caller fills the map up to one below its capacity. */
  lemma {:induction false} Fill(lim: Limits, callers: nat, m: nat) returns (t: System)
    requires callers >= 1 && m < Capacity(lim)
    ensures Reaches(lim, Start(callers), t) && Holding(t, m) && t.pcs == Start(callers).pcs && t.holder == None
    ensures m == 0 ==> t == Start(callers)
  {
    if m == 0 {
      t := Start(callers);
      assert Resume(lim, t, []) == t;
    } else {
      var s := Fill(lim, callers, m - 1);
      t := FillOne(lim, s, m - 1);
      ReachesOn(lim, Start(callers), s, t);
    }
  }

  /** The first `n` callers all find room before any of them inserts. */
  lemma {:induction false} Gather(lim: Limits, s: System, m: nat, n: nat) returns (t: System)
    requires n <= |s.pcs| && Holding(s, m) && s.holder == None
    requires m < lim.maxEntries || (lim.maxEntries == 0 && s.ix == EMPTY)
    requires forall p :: 0 <= p < |s.pcs| ==> s.pcs[p] == Idle
    ensures Reaches(lim, s, t) && t.ix == s.ix && |t.pcs| == |s.pcs| && t.holder == None
    ensures forall p :: 0 <= p < |s.pcs| ==> t.pcs[p] == if p < n then AtFetch(Name(m + p), 0) else Idle
  {
    if n == 0 {
      t := s;
      assert Resume(lim, t, []) == t;
    } else {
      var u := Gather(lim, s, m, n - 1);
      if lim.maxEntries == 0 {
        FindsNothing(lim, u, n - 1, Name(m + n - 1), 0);
      } else {
        FindsRoom(lim, u, n - 1, Name(m + n - 1), 0);
      }
      t := Goto(u, n - 1, AtFetch(Name(m + n - 1), 0));
      ReachesOn(lim, s, u, t);
    }
  }

  /** Then each of them inserts. */
  lemma {:induction false} InsertAll(lim: Limits, s: System, m: nat, n: nat) returns (t: System)
    requires n <= |s.pcs| && Holding(s, m)
    requires forall p :: 0 <= p < |s.pcs| ==> s.pcs[p] == AtFetch(Name(m + p), 0)
    ensures Reaches(lim, s, t) && Holding(t, m + n) && |t.pcs| == |s.pcs|
    ensures forall p :: n <= p < |s.pcs| ==> t.pcs[p] == s.pcs[p]
  {
    if n == 0 {
      t := s;
      assert Resume(lim, t, []) == t;
    } else {
      var u := InsertAll(lim, s, m, n - 1);
      var key := Name(m + n - 1);
      Inserts(lim, u, n - 1, key, 0);
      EnterOne(lim, u, m + n - 1, 0);
      t := Goto(Entered(lim, u, key, 0), n - 1, AtPush(key, 0, u.ix.next));
      ReachesOn(lim, s, u, t);
    }
  }

  /** The bound on the overshoot is reached: no smaller one would hold. */
  lemma OvershootIsReached(lim: Limits, callers: nat)
    requires callers >= 1
    ensures exists run :: |Resume(lim, Start(callers), run).ix.tracker| == Bound(lim, callers)
  {
    var m := Capacity(lim) - 1;
    var filled := Fill(lim, callers, m);
    var gathered := Gather(lim, filled, m, callers);
    var over := InsertAll(lim, gathered, m, callers);
    ReachesOn(lim, Start(callers), filled, gathered);
    ReachesOn(lim, Start(callers), gathered, over);
    var run :| Resume(lim, Start(callers), run) == over;
  }

  /** Two callers have both found `key` new and entered it: both will answer that the request is not a duplicate. */
  ghost predicate BothAccepted(s: System, key: string, now: nat) {
    exists p, q :: 0 <= p < q < |s.pcs| && s.pcs[p].AtPush? && s.pcs[q].AtPush?
      && s.pcs[p].key == s.pcs[q].key == key && s.pcs[p].now == s.pcs[q].now == now
  }

  /** Any two callers can both enter the same fresh id, at the same instant. */
  lemma TwoCallersBothEnter(lim: Limits, callers: nat, key: string, now: nat)
    requires callers >= 2
    ensures exists run :: BothAccepted(Resume(lim, Start(callers), run), key, now)
  {
    var s := Start(callers);
    FreshIndexLetsIn(lim, s, 0, key, now);
    var one := Goto(s, 0, AtFetch(key, now));
    FreshIndexLetsIn(lim, one, 1, key, now);
    var both := Goto(one, 1, AtFetch(key, now));
    Inserts(lim, both, 0, key, now);
    var first := Goto(Entered(lim, both, key, now), 0, AtPush(key, now, both.ix.next));
    Inserts(lim, first, 1, key, now);
    var end := Goto(Entered(lim, first, key, now), 1, AtPush(key, now, first.ix.next));
    ReachesOn(lim, s, one, both);
    ReachesOn(lim, s, both, first);
    ReachesOn(lim, s, first, end);
    var run :| Resume(lim, s, run) == end;
    assert end.pcs[0].AtPush? && end.pcs[1].AtPush?;
    assert BothAccepted(Resume(lim, s, run), key, now);
  }

  // ----- What an eviction removes -----

  /** The number has been given out, and whoever fetched it has used it. */
  ghost predicate Spent(s: System, n: nat) {
    n < s.ix.next && forall p :: 0 <= p < |s.pcs| && s.pcs[p].AtInsert? ==> s.pcs[p].seqNo != n
  }

  /** Those about to insert have numbers of their own. */
  ghost predicate NumbersApart(s: System) {
    && (forall p :: 0 <= p < |s.pcs| && s.pcs[p].AtInsert? ==> s.pcs[p].seqNo < s.ix.next)
    && forall p, q :: 0 <= p < q < |s.pcs| && s.pcs[p].AtInsert? && s.pcs[q].AtInsert? ==>
         s.pcs[p].seqNo != s.pcs[q].seqNo
  }

  /** The numbers of records, queued or in somebody's hands, are spent. */
  ghost predicate Numbered(s: System) {
    && NumbersApart(s)
    && (forall p, r :: 0 <= p < |s.pcs| && Carries(s.pcs[p], r) ==> Spent(s, r.seqNo))
    && forall r :: r in s.ix.order ==> Spent(s, r.seqNo)
  }

  /** Who moves, if anybody does. */
  function Mover(a: Action): nat {
    if a.Clean? then 0 else a.p
  }

  /** Only the mover may have fetched a number, and then it is the next one. */
  ghost predicate Renumbered(s: System, t: System, mover: nat) {
    && |t.pcs| == |s.pcs| && s.ix.next <= t.ix.next
    && forall q :: 0 <= q < |t.pcs| && t.pcs[q].AtInsert? ==>
         if s.pcs[q].AtInsert? then t.pcs[q].seqNo == s.pcs[q].seqNo
         else q == mover && t.pcs[q].seqNo == s.ix.next < t.ix.next
  }

  lemma AdvanceRenumbers(lim: Limits, s: System, p: nat, now: nat)
    requires p < |s.pcs|
    ensures Renumbered(s, Advanced(lim, s, p, now), p)
  {
    var t := Advanced(lim, s, p, now);
    assert t.pcs == s.pcs[p := t.pcs[p]];
  }

  lemma {:induction false} StepRenumbers(lim: Limits, s: System, a: Action)
    ensures Renumbered(s, Step(lim, s, a), Mover(a))
  {
    if a.Advance? && a.p < |s.pcs| {
      AdvanceRenumbers(lim, s, a.p, a.now);
    }
  }

  lemma SpentOn(s: System, t: System, mover: nat, n: nat)
    requires Renumbered(s, t, mover) && Spent(s, n)
    ensures Spent(t, n)
  {
  }

  lemma ApartOn(s: System, t: System, mover: nat)
    requires Renumbered(s, t, mover) && NumbersApart(s)
    ensures NumbersApart(t)
  {
  }

  lemma UsedUp(s: System, t: System, mover: nat, p: nat)
    requires Renumbered(s, t, mover) && NumbersApart(s) && p < |s.pcs| && s.pcs[p].AtInsert? && !t.pcs[p].AtInsert?
    ensures Spent(t, s.pcs[p].seqNo)
  {
  }

  lemma SpentKept(lim: Limits, s: System, a: Action, n: nat)
    requires Spent(s, n)
    ensures Spent(Step(lim, s, a), n)
  {
    StepRenumbers(lim, s, a);
    SpentOn(s, Step(lim, s, a), Mover(a), n);
  }

  lemma AdvanceCarries(lim: Limits, s: System, p: nat, now: nat, r: Record)
    requires p < |s.pcs| && Carries(Advanced(lim, s, p, now).pcs[p], r)
    ensures Carries(s.pcs[p], r) || r in s.ix.order || (s.pcs[p].AtInsert? && s.pcs[p].seqNo == r.seqNo)
  {
  }

  /** What a caller carries after a step it carried before, took from the queue, or has just inserted. */
  lemma WhenceCarried(lim: Limits, s: System, a: Action, p: nat, r: Record)
    requires p < |s.pcs| && p < |Step(lim, s, a).pcs| && Carries(Step(lim, s, a).pcs[p], r)
    ensures Carries(s.pcs[p], r) || r in s.ix.order || (s.pcs[p].AtInsert? && s.pcs[p].seqNo == r.seqNo)
  {
    if a.Advance? && a.p == p {
      AdvanceCarries(lim, s, p, a.now, r);
    } else {
      assert Step(lim, s, a).pcs[p] == s.pcs[p];
    }
  }

  lemma CarriedSpent(lim: Limits, s: System, a: Action, p: nat, r: Record)
    requires Numbered(s) && p < |s.pcs| && p < |Step(lim, s, a).pcs| && Carries(Step(lim, s, a).pcs[p], r)
    ensures Spent(Step(lim, s, a), r.seqNo)
  {
    WhenceCarried(lim, s, a, p, r);
    if Spent(s, r.seqNo) {
      SpentKept(lim, s, a, r.seqNo);
    } else {
      StepRenumbers(lim, s, a);
      UsedUp(s, Step(lim, s, a), Mover(a), p);
    }
  }

  lemma QueuedSpent(lim: Limits, s: System, a: Action, r: Record)
    requires Numbered(s) && r in Step(lim, s, a).ix.order
    ensures Spent(Step(lim, s, a), r.seqNo)
  {
    if r !in s.ix.order {
      assert Carries(s.pcs[a.p], r);
    }
    SpentKept(lim, s, a, r.seqNo);
  }

  lemma NumberedKept(lim: Limits, s: System, a: Action)
    requires Numbered(s)
    ensures Numbered(Step(lim, s, a))
  {
    var t := Step(lim, s, a);
    StepRenumbers(lim, s, a);
    ApartOn(s, t, Mover(a));
    forall p, r | 0 <= p < |t.pcs| && Carries(t.pcs[p], r) ensures Spent(t, r.seqNo) {
      CarriedSpent(lim, s, a, p, r);
    }
    forall r | r in t.ix.order ensures Spent(t, r.seqNo) {
      QueuedSpent(lim, s, a, r);
    }
  }

  lemma {:induction false} EveryRunNumbered(lim: Limits, s: System, run: seq<Action>)
    requires Numbered(s)
    ensures Numbered(Resume(lim, s, run))
    decreases |run|
  {
    if run != [] {
      NumberedKept(lim, s, run[0]);
      EveryRunNumbered(lim, Step(lim, s, run[0]), run[1..]);
    }
  }

  predicate Enters(s: System, a: Action, key: string) {
    a.Advance? && a.p < |s.pcs| && s.pcs[a.p].AtInsert? && s.pcs[a.p].key == key
  }

  /**
    Somebody enters `key` along the run, and nobody removes it afterwards; `already` says whether that has
    happened before.
  */
  function Reentered(lim: Limits, s: System, run: seq<Action>, key: string, already: bool): bool
    decreases |run|
  {
    if run == [] then already
    else
      var t := Step(lim, s, run[0]);
      Reentered(lim, t, run[1..], key, Enters(s, run[0], key) || (already && key in t.ix.tracker))
  }

  /** The entry that the evictor is about to remove is not the one whose record it looked up. */
  predicate Replaced(s: System, r: Record) {
    r.key in s.ix.tracker && !IsCurrent(s.ix.tracker, r)
  }

  lemma ReplacedByEntering(lim: Limits, s: System, p: nat, a: Action, r: Record)
    requires p < |s.pcs| && s.pcs[p].EvictRemove? && s.pcs[p].popped == r && Spent(s, r.seqNo)
    requires !(a.Advance? && a.p == p)
    ensures var t := Step(lim, s, a);
            Replaced(t, r) <==> Enters(s, a, r.key) || (Replaced(s, r) && r.key in t.ix.tracker)
  {
  }

  lemma OthersStay(lim: Limits, s: System, p: nat, a: Action)
    requires p < |s.pcs| && !s.pcs[p].Idle? && !(a.Advance? && a.p == p)
    ensures var t := Step(lim, s, a); |t.pcs| == |s.pcs| && t.pcs[p] == s.pcs[p]
  {
  }

  lemma {:induction false} ReplacedAlong(lim: Limits, s: System, p: nat, more: seq<Action>, r: Record)
    requires p < |s.pcs| && s.pcs[p].EvictRemove? && s.pcs[p].popped == r && Spent(s, r.seqNo)
    requires forall i :: 0 <= i < |more| ==> !(more[i].Advance? && more[i].p == p)
    ensures Replaced(Resume(lim, s, more), r) <==> Reentered(lim, s, more, r.key, Replaced(s, r))
    decreases |more|
  {
    if more != [] {
      OthersStay(lim, s, p, more[0]);
      ReplacedByEntering(lim, s, p, more[0], r);
      SpentKept(lim, s, more[0], r.seqNo);
      ReplacedAlong(lim, Step(lim, s, more[0]), p, more[1..], r);
    }
  }

  /**
    In every run: between looking a record up and removing its key, the evictor's entry is replaced by another
    one, which it then removes in its place, if and only if another caller enters the key in the meantime and
    nobody drops it again.
  */
  lemma {:induction false} EvictsAnotherEntryIff(lim: Limits, callers: nat, run: seq<Action>, p: nat, now: nat,
                                                 more: seq<Action>)
    requires var s := Resume(lim, Start(callers), run);
             p < |s.pcs| && s.pcs[p].EvictLookup? && IsCurrent(s.ix.tracker, s.pcs[p].popped)
    requires forall i :: 0 <= i < |more| ==> !(more[i].Advance? && more[i].p == p)
    ensures var s := Resume(lim, Start(callers), run);
            var found, r := Advanced(lim, s, p, now), s.pcs[p].popped;
            Replaced(Resume(lim, found, more), r) <==> Reentered(lim, found, more, r.key, false)
  {
    var s := Resume(lim, Start(callers), run);
    EveryRunNumbered(lim, Start(callers), run);
    assert Carries(s.pcs[p], s.pcs[p].popped);
    SpentKept(lim, s, Advance(p, now), s.pcs[p].popped.seqNo);
    ReplacedAlong(lim, Advanced(lim, s, p, now), p, more, s.pcs[p].popped);
  }
}
