/**
  The interleaved deduplication index under a clock: which calls it accepts, compared with the sliding window
  of accepted marks. The clock never goes backwards; a caller reads it on entry, before it looks its key up,
  and again before it drops expired entries. A background cleanup acts on a reading that others may have
  overtaken since.
*/
module TimedTracker {
  import opened Core
  import opened RequestTracker
  import IT = InterleavedTracker

  /**
    `marks` are the accepted calls in the order they looked their keys up, each at the instant it read on entry;
    `clock` is the newest reading that anybody has acted on.
  */
  datatype Watched = Watched(sys: IT.System, marks: seq<Mark>, clock: nat)

  /** What the step reads off the clock. */
  function Reading(s: IT.System, a: IT.Action): Option<nat> {
    match a
    case Call(p, _, now) => if p < |s.pcs| && s.pcs[p].Idle? then Some(now) else None
    case Advance(p, now) => if p < |s.pcs| && s.pcs[p].AtCleanup? then Some(now) else None
    case Clean(_) => None
  }

  /** The clock after a step; a cleanup acts on a reading that may be older than others. */
  function ClockAfter(s: IT.System, clock: nat, a: IT.Action): nat {
    if a.Clean? then Max(clock, a.now) else if Reading(s, a).Some? then Reading(s, a).value else clock
  }

  /** A caller looks its key up and finds no unexpired entry. */
  predicate Accepts(s: IT.System, a: IT.Action) {
    a.Advance? && a.p < |s.pcs| && s.pcs[a.p].AtGet? && !IsDuplicate(s.ix.tracker, s.pcs[a.p].key, s.pcs[a.p].now)
  }

  function Watch(lim: Limits, w: Watched, a: IT.Action): Watched {
    Watched(IT.Step(lim, w.sys, a),
            if Accepts(w.sys, a) then w.marks + [Mark(w.sys.pcs[a.p].key, w.sys.pcs[a.p].now)] else w.marks,
            ClockAfter(w.sys, w.clock, a))
  }

  predicate OnTime(w: Watched, a: IT.Action) {
    Reading(w.sys, a).Some? ==> w.clock <= Reading(w.sys, a).value
  }

  // ----- One caller and the cleaner -----

  /** Every entry is unexpired. */
  ghost predicate AllLive(tracker: Entries, clock: nat) {
    forall k :: k in tracker ==> clock < tracker[k].expiresAt
  }

  ghost predicate Matches(lim: Limits, tracker: Entries, order: seq<Record>, marks: seq<Mark>, clock: nat) {
    |tracker| <= Capacity(lim) && Linked(lim, tracker, order, marks) && Covers(lim, tracker, marks, clock)
  }

  /** Evicting now leaves what one more mark needs. */
  ghost predicate EvictsToRoom(lim: Limits, tracker: Entries, order: seq<Record>, marks: seq<Mark>, clock: nat) {
    && AllLive(tracker, clock) && |tracker| <= Capacity(lim) && Linked(lim, tracker, order, marks)
    && HasRoom(lim, Evict(tracker, order).0, Evict(tracker, order).1, marks, clock)
  }

  /** The clock still reads `now`, or a cleanup has since dropped what expired meanwhile. */
  ghost predicate Current(tracker: Entries, now: nat, clock: nat) {
    now <= clock && (now == clock || AllLive(tracker, clock))
  }

  /** The state of the index in the middle of marking `key`; `marks` are those of the earlier calls. */
  ghost predicate Between(lim: Limits, ix: Index, pc: IT.Pc, marks: seq<Mark>, clock: nat)
    requires !pc.Idle?
  {
    var rest := Without(ix.tracker, pc.key);
    && ix.next == |marks| + (if pc.AtInsert? || pc.AtPush? then 1 else 0)
    && Ordered(marks, pc.now) && pc.now <= clock
    && (pc.AtRemove? || pc.AtPush? || pc.key !in ix.tracker)
    && match pc {
         case AtRemove(_, _) => Matches(lim, rest, ix.order, marks, clock)
         case AtLen(_, _) => Matches(lim, ix.tracker, ix.order, marks, clock)
         case AtCleanup(_, _) => Matches(lim, ix.tracker, ix.order, marks, clock)
         case AtRetain(_, _, at) => Matches(lim, ix.tracker, ix.order, marks, clock) && Current(ix.tracker, at, clock)
         case AtLenAgain(_, _) => Matches(lim, ix.tracker, ix.order, marks, clock) && AllLive(ix.tracker, clock)
         case AtLock(_, _) => EvictsToRoom(lim, ix.tracker, ix.order, marks, clock)
         case EvictPop(_, _) => EvictsToRoom(lim, ix.tracker, ix.order, marks, clock)
         case EvictLookup(_, _, r) => EvictsToRoom(lim, ix.tracker, [r] + ix.order, marks, clock)
         case EvictRemove(_, _, r) =>
           AllLive(ix.tracker, clock) && HasRoom(lim, Without(ix.tracker, r.key), ix.order, marks, clock)
         case AtFetch(_, _) => HasRoom(lim, ix.tracker, ix.order, marks, clock)
         case AtInsert(_, _, n) => n == |marks| && HasRoom(lim, ix.tracker, ix.order, marks, clock)
         case AtPush(k, t, n) =>
           n == |marks| && Inv(lim, ix.(order := ix.order + [Record(n, k)]), marks + [Mark(k, t)], clock)
         case _ => false
       }
  }

  /** The state of the index before the caller looks its key up. */
  ghost predicate Looking(lim: Limits, ix: Index, now: nat, marks: seq<Mark>, clock: nat) {
    Inv(lim, ix, marks, clock) && Ordered(marks, now) && Current(ix.tracker, now, clock)
  }

  ghost predicate Follows(lim: Limits, w: Watched) {
    && |w.sys.pcs| == 1
    && var pc := w.sys.pcs[0];
       if pc.Idle? then Inv(lim, w.sys.ix, w.marks, w.clock)
       else if pc.AtGet? then Looking(lim, w.sys.ix, pc.now, w.marks, w.clock)
       else w.marks != [] && Last(w.marks) == Mark(pc.key, pc.now)
            && Between(lim, w.sys.ix, pc, Front(w.marks), w.clock)
  }

  /** The caller has decided to evict and has not yet found the entry to remove. */
  predicate AboutToEvict(pc: IT.Pc) {
    pc.AtLock? || pc.EvictPop? || pc.EvictLookup?
  }

  /** A cleanup finds all entries expired, or none. */
  predicate DropsAllOrNone(tracker: Entries, now: nat) {
    Retained(tracker, now) == tracker || Retained(tracker, now) == map[]
  }

  /** No cleanup drops some of the entries and leaves others while the caller is about to evict. */
  predicate Discreet(s: IT.System, a: IT.Action) {
    a.Clean? && |s.pcs| == 1 && AboutToEvict(s.pcs[0]) ==> DropsAllOrNone(s.ix.tracker, a.now)
  }

  // ----- What can be reached -----

  /** The `i`-th step of a history; without a cleanup that comes between if `calm`. */
  predicate Stepped(lim: Limits, run: seq<IT.Action>, states: seq<Watched>, i: nat, calm: bool)
    requires i < |run| && |states| == |run| + 1
  {
    && states[i + 1] == Watch(lim, states[i], run[i])
    && OnTime(states[i], run[i]) && (calm ==> Discreet(states[i].sys, run[i]))
  }

  /** A run of the system with the states it goes through. */
  ghost predicate History(lim: Limits, callers: nat, run: seq<IT.Action>, states: seq<Watched>, calm: bool) {
    && |states| == |run| + 1 && states[0] == Watched(IT.Start(callers), [], 0)
    && forall i: nat :: i < |run| ==> Stepped(lim, run, states, i, calm)
  }

  ghost predicate Reached(lim: Limits, callers: nat, w: Watched, calm: bool) {
    exists run, states :: History(lim, callers, run, states, calm) && Last(states) == w
  }

  lemma StartReached(lim: Limits, callers: nat)
    ensures Reached(lim, callers, Watched(IT.Start(callers), [], 0), true)
  {
    assert History(lim, callers, [], [Watched(IT.Start(callers), [], 0)], true);
  }

  lemma ReachedAnyway(lim: Limits, callers: nat, w: Watched)
    requires Reached(lim, callers, w, true)
    ensures Reached(lim, callers, w, false)
  {
    var run, states :| History(lim, callers, run, states, true) && Last(states) == w;
    forall i: nat | i < |run| ensures Stepped(lim, run, states, i, false) {
      assert Stepped(lim, run, states, i, true);
    }
    assert History(lim, callers, run, states, false);
  }

  lemma ReachedOn(lim: Limits, callers: nat, w: Watched, calm: bool, a: IT.Action)
    requires Reached(lim, callers, w, calm) && OnTime(w, a) && (calm ==> Discreet(w.sys, a))
    ensures Reached(lim, callers, Watch(lim, w, a), calm)
  {
    var run, states :| History(lim, callers, run, states, calm) && Last(states) == w;
    var more, further := run + [a], states + [Watch(lim, w, a)];
    forall i: nat | i < |more| ensures Stepped(lim, more, further, i, calm) {
      if i < |run| {
        assert Stepped(lim, run, states, i, calm);
      }
    }
    assert History(lim, callers, more, further, calm);
  }

  /** Watching does not disturb: the states are those that the steps of the run lead to. */
  lemma {:induction false} HistorySystem(lim: Limits, callers: nat, run: seq<IT.Action>, states: seq<Watched>,
                                         calm: bool, i: nat)
    requires History(lim, callers, run, states, calm) && i < |states|
    ensures states[i].sys == IT.Resume(lim, IT.Start(callers), run[..i])
  {
    if i > 0 {
      HistorySystem(lim, callers, run, states, calm, i - 1);
      assert Stepped(lim, run, states, i - 1, calm);
      assert run[..i] == run[..i - 1] + [run[i - 1]];
      IT.ResumeConcat(lim, IT.Start(callers), run[..i - 1], [run[i - 1]]);
      IT.ResumeOne(lim, states[i - 1].sys, run[i - 1]);
    }
  }

  /** Every reached state is one of the interleaved system. */
  lemma ReachedSystem(lim: Limits, callers: nat, w: Watched, calm: bool)
    requires Reached(lim, callers, w, calm)
    ensures exists run :: w.sys == IT.Resume(lim, IT.Start(callers), run)
    ensures IT.MutexOwned(w.sys) && |w.sys.pcs| == callers
  {
    var run, states :| History(lim, callers, run, states, calm) && Last(states) == w;
    HistorySystem(lim, callers, run, states, calm, |run|);
    assert run[..|run|] == run;
    IT.StartInv(lim, callers);
    IT.RunKeepsInv(lim, IT.Start(callers), run);
  }

  // ----- The passing of time -----

  lemma LaterRoom(lim: Limits, tracker: Entries, order: seq<Record>, marks: seq<Mark>, clock: nat, now: nat)
    requires HasRoom(lim, tracker, order, marks, clock) && clock <= now
    ensures HasRoom(lim, tracker, order, marks, now)
  {
  }

  lemma RetainedMatches(lim: Limits, tracker: Entries, order: seq<Record>, marks: seq<Mark>, clock: nat, at: nat,
                        now: nat)
    requires Matches(lim, tracker, order, marks, clock) && clock <= now && at <= now
    ensures Matches(lim, Retained(tracker, at), order, marks, now)
  {
    RetainedKeeps(lim, tracker, order, marks, clock, at, now);
  }

  lemma RetainedLive(tracker: Entries, clock: nat, at: nat)
    requires at < clock ==> AllLive(tracker, clock)
    ensures AllLive(Retained(tracker, at), Max(clock, at))
  {
  }

  lemma RetainedCurrent(tracker: Entries, start: nat, clock: nat, at: nat)
    requires Current(tracker, start, clock)
    ensures Current(Retained(tracker, at), start, Max(clock, at))
  {
  }

  lemma RetainedRoom(lim: Limits, tracker: Entries, order: seq<Record>, marks: seq<Mark>, clock: nat, at: nat, now: nat)
    requires HasRoom(lim, tracker, order, marks, clock) && clock <= now && at <= now
    ensures HasRoom(lim, Retained(tracker, at), order, marks, now)
  {
    var live := Retained(tracker, at);
    Subset(live.Keys, tracker.Keys);
    forall i | 0 <= i < |marks| && |marks| + 1 - Capacity(lim) <= i && now < marks[i].time + lim.ttl
      ensures IsCurrent(live, Record(i, marks[i].key))
    {
      assert IsCurrent(tracker, Record(i, marks[i].key));
    }
  }

  lemma RetainedLinked(lim: Limits, tracker: Entries, order: seq<Record>, marks: seq<Mark>, now: nat)
    requires Linked(lim, tracker, order, marks)
    ensures Linked(lim, Retained(tracker, now), order, marks)
    ensures |Retained(tracker, now)| <= |tracker| && AllLive(Retained(tracker, now), now)
  {
    Subset(Retained(tracker, now).Keys, tracker.Keys);
  }

  /** If a cleanup drops everything, no mark that will still count is unexpired. */
  lemma NothingLeftToCover(lim: Limits, tracker: Entries, order: seq<Record>, marks: seq<Mark>, clock: nat, now: nat,
                           i: nat)
    requires EvictsToRoom(lim, tracker, order, marks, clock) && clock <= now && Retained(tracker, now) == map[]
    requires i < |marks| && |marks| + 1 - Capacity(lim) <= i
    ensures marks[i].time + lim.ttl <= now
  {
    EvictKeepsEntries(tracker, order);
    var k := marks[i].key;
    if IsCurrent(tracker, Record(i, k)) {
      assert k !in Retained(tracker, now);
    }
  }

  /** A cleanup before the eviction does no harm if it finds all entries expired, or none. */
  lemma CleanBeforeEviction(lim: Limits, tracker: Entries, order: seq<Record>, marks: seq<Mark>, clock: nat, now: nat)
    requires EvictsToRoom(lim, tracker, order, marks, clock) && clock <= now && DropsAllOrNone(tracker, now)
    ensures EvictsToRoom(lim, Retained(tracker, now), order, marks, now)
  {
    var live := Retained(tracker, now);
    RetainedLinked(lim, tracker, order, marks, now);
    if live == tracker {
      LaterRoom(lim, Evict(tracker, order).0, Evict(tracker, order).1, marks, clock, now);
    } else {
      EvictTakesFirst(lim, live, order, marks);
      forall i: nat | i < |marks| && |marks| + 1 - Capacity(lim) <= i ensures marks[i].time + lim.ttl <= now {
        NothingLeftToCover(lim, tracker, order, marks, clock, now, i);
      }
    }
  }

  lemma {:induction false} EvictKeepsEntries(tracker: Entries, order: seq<Record>)
    ensures forall k :: k in Evict(tracker, order).0 ==> k in tracker && Evict(tracker, order).0[k] == tracker[k]
  {
    if order != [] && !IsCurrent(tracker, order[0]) {
      EvictKeepsEntries(tracker, order[1..]);
    }
  }

  // ----- Every step keeps the correspondence, unless a cleanup comes between -----

  predicate Early(pc: IT.Pc) {
    pc.AtRemove? || pc.AtLen? || pc.AtCleanup? || pc.AtRetain? || pc.AtLenAgain?
  }

  lemma WithoutRetained(tracker: Entries, key: string, at: nat)
    ensures Without(Retained(tracker, at), key) == Retained(Without(tracker, key), at)
  {
  }

  lemma CleanRemoving(lim: Limits, ix: Index, pc: IT.Pc, marks: seq<Mark>, clock: nat, at: nat)
    requires pc.AtRemove? && Between(lim, ix, pc, marks, clock)
    ensures Between(lim, ix.(tracker := Retained(ix.tracker, at)), pc, marks, Max(clock, at))
  {
    WithoutRetained(ix.tracker, pc.key, at);
    RetainedMatches(lim, Without(ix.tracker, pc.key), ix.order, marks, clock, at, Max(clock, at));
  }

  lemma CleanEarly(lim: Limits, ix: Index, pc: IT.Pc, marks: seq<Mark>, clock: nat, at: nat)
    requires Early(pc) && !pc.AtRemove? && Between(lim, ix, pc, marks, clock)
    ensures Between(lim, ix.(tracker := Retained(ix.tracker, at)), pc, marks, Max(clock, at))
  {
    RetainedMatches(lim, ix.tracker, ix.order, marks, clock, at, Max(clock, at));
    assert pc.key !in Retained(ix.tracker, at);
    if pc.AtRetain? {
      RetainedCurrent(ix.tracker, pc.at, clock, at);
    } else if pc.AtLenAgain? {
      RetainedLive(ix.tracker, clock, at);
    }
  }

  /** A reading that has been overtaken drops nothing once everything expired is gone. */
  lemma OvertakenDropsNothing(tracker: Entries, clock: nat, at: nat)
    requires AllLive(tracker, clock) && at <= clock
    ensures Retained(tracker, at) == tracker
  {
  }

  lemma CleanEvicting(lim: Limits, ix: Index, pc: IT.Pc, marks: seq<Mark>, clock: nat, at: nat)
    requires AboutToEvict(pc) && Between(lim, ix, pc, marks, clock) && DropsAllOrNone(ix.tracker, at)
    ensures Between(lim, ix.(tracker := Retained(ix.tracker, at)), pc, marks, Max(clock, at))
  {
    if at <= clock {
      OvertakenDropsNothing(ix.tracker, clock, at);
    } else {
      var order := if pc.EvictLookup? then [pc.popped] + ix.order else ix.order;
      CleanBeforeEviction(lim, ix.tracker, order, marks, clock, at);
    }
  }

  /** Between two calls, before a lookup, and about to push. */
  lemma CleanOutside(lim: Limits, ix: Index, marks: seq<Mark>, clock: nat, at: nat)
    requires Inv(lim, ix, marks, clock)
    ensures Inv(lim, ix.(tracker := Retained(ix.tracker, at)), marks, Max(clock, at))
  {
    RetainedKeeps(lim, ix.tracker, ix.order, marks, clock, at, Max(clock, at));
  }

  lemma CleanRemovingVictim(lim: Limits, ix: Index, pc: IT.Pc, marks: seq<Mark>, clock: nat, at: nat)
    requires pc.EvictRemove? && Between(lim, ix, pc, marks, clock)
    ensures Between(lim, ix.(tracker := Retained(ix.tracker, at)), pc, marks, Max(clock, at))
  {
    WithoutRetained(ix.tracker, pc.popped.key, at);
    RetainedRoom(lim, Without(ix.tracker, pc.popped.key), ix.order, marks, clock, at, Max(clock, at));
    RetainedLive(ix.tracker, clock, at);
    assert pc.key !in Retained(ix.tracker, at);
  }

  lemma CleanPushing(lim: Limits, ix: Index, pc: IT.Pc, marks: seq<Mark>, clock: nat, at: nat)
    requires pc.AtPush? && Between(lim, ix, pc, marks, clock)
    ensures Between(lim, ix.(tracker := Retained(ix.tracker, at)), pc, marks, Max(clock, at))
  {
    CleanOutside(lim, ix.(order := ix.order + [Record(pc.seqNo, pc.key)]), marks + [Mark(pc.key, pc.now)], clock, at);
  }

  lemma CleanFetching(lim: Limits, ix: Index, pc: IT.Pc, marks: seq<Mark>, clock: nat, at: nat)
    requires (pc.AtFetch? || pc.AtInsert?) && Between(lim, ix, pc, marks, clock)
    ensures Between(lim, ix.(tracker := Retained(ix.tracker, at)), pc, marks, Max(clock, at))
  {
    RetainedRoom(lim, ix.tracker, ix.order, marks, clock, at, Max(clock, at));
  }

  lemma CleanLooking(lim: Limits, ix: Index, start: nat, marks: seq<Mark>, clock: nat, at: nat)
    requires Looking(lim, ix, start, marks, clock)
    ensures Looking(lim, ix.(tracker := Retained(ix.tracker, at)), start, marks, Max(clock, at))
  {
    CleanOutside(lim, ix, marks, clock, at);
    RetainedCurrent(ix.tracker, start, clock, at);
  }

  lemma CleanBetween(lim: Limits, ix: Index, pc: IT.Pc, marks: seq<Mark>, clock: nat, at: nat)
    requires !pc.Idle? && !pc.AtGet? && Between(lim, ix, pc, marks, clock)
    requires AboutToEvict(pc) ==> DropsAllOrNone(ix.tracker, at)
    ensures Between(lim, ix.(tracker := Retained(ix.tracker, at)), pc, marks, Max(clock, at))
  {
    if pc.AtRemove? {
      CleanRemoving(lim, ix, pc, marks, clock, at);
    } else if Early(pc) {
      CleanEarly(lim, ix, pc, marks, clock, at);
    } else if AboutToEvict(pc) {
      CleanEvicting(lim, ix, pc, marks, clock, at);
    } else if pc.EvictRemove? {
      CleanRemovingVictim(lim, ix, pc, marks, clock, at);
    } else if pc.AtPush? {
      CleanPushing(lim, ix, pc, marks, clock, at);
    } else {
      CleanFetching(lim, ix, pc, marks, clock, at);
    }
  }

  lemma CleanFollows(lim: Limits, w: Watched, at: nat)
    requires Follows(lim, w) && Discreet(w.sys, IT.Clean(at))
    ensures Follows(lim, Watch(lim, w, IT.Clean(at)))
  {
    var pc, ix := w.sys.pcs[0], w.sys.ix;
    if pc.Idle? {
      CleanOutside(lim, ix, w.marks, w.clock, at);
    } else if pc.AtGet? {
      CleanLooking(lim, ix, pc.now, w.marks, w.clock, at);
    } else {
      CleanBetween(lim, ix, pc, Front(w.marks), w.clock, at);
    }
  }

  lemma CallFollows(lim: Limits, w: Watched, key: string, now: nat)
    requires Follows(lim, w) && w.sys.pcs[0].Idle? && w.clock <= now
    ensures Follows(lim, Watch(lim, w, IT.Call(0, key, now)))
  {
  }

  /** Where a lookup leaves the caller. */
  function AfterLookup(tracker: Entries, key: string, start: nat): IT.Pc {
    if IsDuplicate(tracker, key, start) then IT.Idle
    else if key in tracker then IT.AtRemove(key, start) else IT.AtLen(key, start)
  }

  /** A lookup that finds nothing unexpired leaves what the marking needs. */
  lemma LookupAccepts(lim: Limits, ix: Index, key: string, start: nat, marks: seq<Mark>, clock: nat)
    requires Looking(lim, ix, start, marks, clock) && !IsDuplicate(ix.tracker, key, start)
    ensures Between(lim, ix, AfterLookup(ix.tracker, key, start), marks, clock)
  {
    DropExpired(lim, ix, marks, clock, key, clock);
    assert key !in ix.tracker ==> Without(ix.tracker, key) == ix.tracker;
  }

  /** The caller looks its key up: it is refused, or its mark is the next one. */
  lemma LookupWatched(lim: Limits, w: Watched, now: nat)
    requires |w.sys.pcs| == 1 && w.sys.pcs[0].AtGet?
    ensures var key, start, tracker := w.sys.pcs[0].key, w.sys.pcs[0].now, w.sys.ix.tracker;
            Watch(lim, w, IT.Advance(0, now)) == Watched(
              IT.Goto(w.sys, 0, AfterLookup(tracker, key, start)),
              if IsDuplicate(tracker, key, start) then w.marks else w.marks + [Mark(key, start)], w.clock)
  {
  }

  lemma LookupFollows(lim: Limits, w: Watched, now: nat)
    requires Follows(lim, w) && w.sys.pcs[0].AtGet?
    ensures Follows(lim, Watch(lim, w, IT.Advance(0, now)))
  {
    var key, start, ix := w.sys.pcs[0].key, w.sys.pcs[0].now, w.sys.ix;
    LookupWatched(lim, w, now);
    if !IsDuplicate(ix.tracker, key, start) {
      assert Front(w.marks + [Mark(key, start)]) == w.marks;
      LookupAccepts(lim, ix, key, start, w.marks, w.clock);
    }
  }

  /** An entry whose record has just been found stale leaves the rest linked to the rest of the queue. */
  lemma LinkedBehind(lim: Limits, tracker: Entries, r: Record, order: seq<Record>, marks: seq<Mark>)
    requires Linked(lim, tracker, [r] + order, marks) && !IsCurrent(tracker, r)
    ensures Linked(lim, tracker, order, marks)
  {
    var all := [r] + order;
    assert all[1..] == order;
    forall k | k in tracker ensures |marks| - |order| <= tracker[k].seqNo {
      assert all[0] == Record(|marks| - |all|, marks[|marks| - |all|].key);
    }
  }

  lemma AdvanceRetaining(lim: Limits, s: IT.System, marks: seq<Mark>, clock: nat, now: nat)
    requires |s.pcs| == 1 && s.pcs[0].AtRetain? && Between(lim, s.ix, s.pcs[0], marks, clock)
    ensures var t := IT.Advanced(lim, s, 0, now);
            !t.pcs[0].Idle? && Between(lim, t.ix, t.pcs[0], marks, clock)
  {
    var ix, at := s.ix, s.pcs[0].at;
    assert Matches(lim, Retained(ix.tracker, at), ix.order, marks, clock) by {
      RetainedMatches(lim, ix.tracker, ix.order, marks, clock, at, clock);
    }
    RetainedLive(ix.tracker, clock, at);
  }

  lemma AdvanceMeasuring(lim: Limits, s: IT.System, marks: seq<Mark>, clock: nat, now: nat)
    requires |s.pcs| == 1 && (s.pcs[0].AtLen? || s.pcs[0].AtLenAgain?) && Between(lim, s.ix, s.pcs[0], marks, clock)
    ensures var t := IT.Advanced(lim, s, 0, now);
            !t.pcs[0].Idle? && Between(lim, t.ix, t.pcs[0], marks, clock)
  {
    if |s.ix.tracker| < lim.maxEntries {
      RoomBelowCapacity(lim, s.ix.tracker, s.ix.order, marks, clock);
    } else if s.pcs[0].AtLenAgain? {
      RoomByEviction(lim, s.ix.tracker, s.ix.order, marks, clock);
    }
  }

  lemma AdvanceEarly(lim: Limits, s: IT.System, marks: seq<Mark>, clock: nat, now: nat)
    requires |s.pcs| == 1 && Early(s.pcs[0])
    requires Between(lim, s.ix, s.pcs[0], marks, clock) && (s.pcs[0].AtCleanup? ==> clock <= now)
    ensures var t := IT.Advanced(lim, s, 0, now);
            !t.pcs[0].Idle? && Between(lim, t.ix, t.pcs[0], marks, ClockAfter(s, clock, IT.Advance(0, now)))
  {
    if s.pcs[0].AtRetain? {
      AdvanceRetaining(lim, s, marks, clock, now);
    } else if s.pcs[0].AtLen? || s.pcs[0].AtLenAgain? {
      AdvanceMeasuring(lim, s, marks, clock, now);
    }
  }

  lemma AdvanceEvicting(lim: Limits, s: IT.System, marks: seq<Mark>, clock: nat, now: nat)
    requires |s.pcs| == 1 && (AboutToEvict(s.pcs[0]) || s.pcs[0].EvictRemove?)
    requires Between(lim, s.ix, s.pcs[0], marks, clock)
    ensures var t := IT.Advanced(lim, s, 0, now);
            !t.pcs[0].Idle? && Between(lim, t.ix, t.pcs[0], marks, clock)
  {
    var pc, ix := s.pcs[0], s.ix;
    if pc.EvictPop? && ix.order != [] {
      assert ix.order == [ix.order[0]] + ix.order[1..];
    }
    if pc.EvictLookup? {
      assert ([pc.popped] + ix.order)[1..] == ix.order;
      if !IsCurrent(ix.tracker, pc.popped) {
        LinkedBehind(lim, ix.tracker, pc.popped, ix.order, marks);
      }
    }
  }

  lemma Inserted(lim: Limits, ix: Index, key: string, t: nat, marks: seq<Mark>, clock: nat)
    requires HasRoom(lim, ix.tracker, ix.order, marks, clock) && key !in ix.tracker
    requires Ordered(marks, t) && t <= clock && ix.next == |marks| + 1
    ensures Between(lim, ix.(tracker := ix.tracker[key := Entry(t + lim.ttl, |marks|)]),
                    IT.AtPush(key, t, |marks|), marks, clock)
  {
    MarkRestores(lim, ix.tracker, ix.order, marks, key, t, clock);
  }

  lemma AdvanceFetching(lim: Limits, s: IT.System, marks: seq<Mark>, clock: nat, now: nat)
    requires |s.pcs| == 1 && s.pcs[0].AtFetch? && Between(lim, s.ix, s.pcs[0], marks, clock)
    ensures var t := IT.Advanced(lim, s, 0, now);
            !t.pcs[0].Idle? && Between(lim, t.ix, t.pcs[0], marks, clock)
  {
  }

  lemma AdvanceInserting(lim: Limits, s: IT.System, marks: seq<Mark>, clock: nat, now: nat)
    requires |s.pcs| == 1 && s.pcs[0].AtInsert? && Between(lim, s.ix, s.pcs[0], marks, clock)
    ensures var t := IT.Advanced(lim, s, 0, now);
            !t.pcs[0].Idle? && Between(lim, t.ix, t.pcs[0], marks, clock)
  {
    var key, start, n := s.pcs[0].key, s.pcs[0].now, s.pcs[0].seqNo;
    var t := IT.Advanced(lim, s, 0, now);
    var ix := s.ix.(tracker := s.ix.tracker[key := Entry(start + lim.ttl, n)]);
    assert t.ix == ix && t.pcs[0] == IT.AtPush(key, start, n);
    assert Between(lim, ix, IT.AtPush(key, start, n), marks, clock) by {
      Inserted(lim, s.ix, key, start, marks, clock);
    }
  }

  /** The caller is in the middle of marking. */
  predicate Marking(pc: IT.Pc) {
    !pc.Idle? && !pc.AtGet? && !pc.AtPush?
  }

  /** A step of a call leaves the call the same. */
  lemma SameCall(lim: Limits, s: IT.System, now: nat)
    requires |s.pcs| == 1 && Marking(s.pcs[0])
    ensures var pc := IT.Advanced(lim, s, 0, now).pcs[0];
            !pc.Idle? && !pc.AtGet? && pc.key == s.pcs[0].key && pc.now == s.pcs[0].now
  {
  }

  lemma AdvanceFollows(lim: Limits, w: Watched, now: nat)
    requires Follows(lim, w) && OnTime(w, IT.Advance(0, now)) && Marking(w.sys.pcs[0])
    ensures Follows(lim, Watch(lim, w, IT.Advance(0, now)))
  {
    var pc, a := w.sys.pcs[0], IT.Advance(0, now);
    SameCall(lim, w.sys, now);
    IT.SameCallers(lim, w.sys, a);
    var t, clock := IT.Advanced(lim, w.sys, 0, now), ClockAfter(w.sys, w.clock, a);
    assert Watch(lim, w, a) == Watched(t, w.marks, clock);
    assert Between(lim, t.ix, t.pcs[0], Front(w.marks), clock) by {
      if Early(pc) {
        AdvanceEarly(lim, w.sys, Front(w.marks), w.clock, now);
      } else if AboutToEvict(pc) || pc.EvictRemove? {
        AdvanceEvicting(lim, w.sys, Front(w.marks), w.clock, now);
      } else if pc.AtFetch? {
        AdvanceFetching(lim, w.sys, Front(w.marks), w.clock, now);
      } else {
        AdvanceInserting(lim, w.sys, Front(w.marks), w.clock, now);
      }
    }
  }

  lemma PushFollows(lim: Limits, w: Watched, now: nat)
    requires Follows(lim, w) && w.sys.pcs[0].AtPush?
    ensures Follows(lim, Watch(lim, w, IT.Advance(0, now)))
  {
    assert Front(w.marks) + [Last(w.marks)] == w.marks;
  }

  lemma StepFollows(lim: Limits, w: Watched, a: IT.Action)
    requires Follows(lim, w) && OnTime(w, a) && Discreet(w.sys, a)
    ensures Follows(lim, Watch(lim, w, a))
  {
    match a
    case Call(p, key, now) => if p == 0 && w.sys.pcs[0].Idle? { CallFollows(lim, w, key, now); }
    case Clean(now) => CleanFollows(lim, w, now);
    case Advance(p, now) =>
      if p == 0 && w.sys.pcs[0].AtGet? {
        LookupFollows(lim, w, now);
      } else if p == 0 && w.sys.pcs[0].AtPush? {
        PushFollows(lim, w, now);
      } else if p == 0 && !w.sys.pcs[0].Idle? {
        AdvanceFollows(lim, w, now);
      } else {
        assert Watch(lim, w, a) == w;
      }
  }

  /** With so little room, or so little time, that entries in the map together also expire together. */
  predicate Small(lim: Limits) {
    lim.maxEntries <= 1 || lim.ttl <= 1
  }

  lemma SmallDropsAllOrNone(lim: Limits, tracker: Entries, order: seq<Record>, marks: seq<Mark>, clock: nat, now: nat)
    requires Small(lim) && AllLive(tracker, clock) && |tracker| <= Capacity(lim)
    requires Linked(lim, tracker, order, marks) && Ordered(marks, clock)
    ensures DropsAllOrNone(tracker, now)
  {
    if !DropsAllOrNone(tracker, now) {
      var live := Retained(tracker, now);
      var k :| k in live;
      var j :| j in tracker && j !in live;
      if lim.ttl > 1 {
        Subset({j, k}, tracker.Keys);
      }
    }
  }

  lemma SmallIsDiscreet(lim: Limits, w: Watched, a: IT.Action)
    requires Follows(lim, w) && Small(lim)
    ensures Discreet(w.sys, a)
  {
    var pc := w.sys.pcs[0];
    if a.Clean? && AboutToEvict(pc) {
      var order := if pc.EvictLookup? then [pc.popped] + w.sys.ix.order else w.sys.ix.order;
      SmallDropsAllOrNone(lim, w.sys.ix.tracker, order, Front(w.marks), w.clock, a.now);
    }
  }

  lemma {:induction false} HistoryFollows(lim: Limits, run: seq<IT.Action>, states: seq<Watched>, calm: bool, i: nat)
    requires History(lim, 1, run, states, calm) && (calm || Small(lim)) && i < |states|
    ensures Follows(lim, states[i])
  {
    if i == 0 {
      assert Inv(lim, EMPTY, [], 0);
    } else {
      HistoryFollows(lim, run, states, calm, i - 1);
      assert Stepped(lim, run, states, i - 1, calm);
      if Small(lim) {
        SmallIsDiscreet(lim, states[i - 1], run[i - 1]);
      }
      StepFollows(lim, states[i - 1], run[i - 1]);
    }
  }

  lemma ReachedFollows(lim: Limits, w: Watched, calm: bool)
    requires Reached(lim, 1, w, calm) && (calm || Small(lim))
    ensures Follows(lim, w)
  {
    var run, states :| History(lim, 1, run, states, calm) && Last(states) == w;
    HistoryFollows(lim, run, states, calm, |run|);
  }

  /**
    A caller that is about to look its key up finds what the window says at the newest reading, which lies
    between the caller's own and the lookup; the map of an idle caller tells apart what the window tells apart.
  */
  ghost predicate AnswersAsWindow(lim: Limits, w: Watched) {
    w.sys.pcs != [] ==>
      match w.sys.pcs[0]
      case AtGet(key, start) =>
        start <= w.clock && (IsDuplicate(w.sys.ix.tracker, key, start) <==> Marked(lim, w.marks, key, w.clock))
      case Idle =>
        forall key, now ::
          w.clock <= now ==> (IsDuplicate(w.sys.ix.tracker, key, now) <==> Marked(lim, w.marks, key, now))
      case _ => true
  }

  /** The caller's own reading and the newest one tell the same entries from expired ones. */
  lemma LookupIsCurrent(tracker: Entries, key: string, start: nat, clock: nat)
    requires Current(tracker, start, clock)
    ensures IsDuplicate(tracker, key, start) <==> IsDuplicate(tracker, key, clock)
  {
  }

  lemma FollowsAnswers(lim: Limits, w: Watched)
    requires Follows(lim, w)
    ensures AnswersAsWindow(lim, w)
  {
    var ix, pc := w.sys.ix, w.sys.pcs[0];
    if pc.AtGet? {
      DuplicateIffMarked(lim, ix, w.marks, w.clock, pc.key, w.clock);
      LookupIsCurrent(ix.tracker, pc.key, pc.now, w.clock);
    } else if pc.Idle? {
      forall key, now | w.clock <= now ensures IsDuplicate(ix.tracker, key, now) <==> Marked(lim, w.marks, key, now) {
        DuplicateIffMarked(lim, ix, w.marks, w.clock, key, now);
      }
    }
  }

  /**
    One caller interleaved step by step with the cleaner is answered as by the sliding window at the newest
    reading when it looks its key up, if no cleanup drops some entries and leaves others while the caller is
    about to evict.
  */
  lemma OneCallerAnswersAsWindow(lim: Limits, w: Watched, calm: bool)
    requires Reached(lim, 1, w, calm) && (calm || Small(lim))
    ensures AnswersAsWindow(lim, w)
  {
    ReachedFollows(lim, w, calm);
    FollowsAnswers(lim, w);
  }

  // ----- A cleanup that comes between -----

  /** Once a cleanup has dropped an entry, all that are left would have survived the eviction. */
  lemma OldestWentFirst(lim: Limits, tracker: Entries, first: string, order: seq<Record>, marks: seq<Mark>,
                        clock: nat, now: nat, k: string)
    requires IsOldest(tracker, first) && AllLive(tracker, clock)
    requires HasRoom(lim, Without(tracker, first), order, marks, clock)
    requires Retained(tracker, now) != tracker && k in Retained(tracker, now)
    ensures |marks| + 1 - Capacity(lim) <= tracker[k].seqNo
  {
    var gone :| gone in tracker && gone !in Retained(tracker, now);
    assert k != first;
    assert k in Without(tracker, first) && Without(tracker, first)[k] == tracker[k];
  }

  lemma SurvivorsHaveRoom(lim: Limits, tracker: Entries, order: seq<Record>, marks: seq<Mark>, clock: nat, now: nat,
                          k: string)
    requires EvictsToRoom(lim, tracker, order, marks, clock) && Ordered(marks, clock)
    requires Retained(tracker, now) != tracker && k in Retained(tracker, now)
    ensures |marks| + 1 - Capacity(lim) <= tracker[k].seqNo
  {
    VictimIsOldest(lim, tracker, order, marks, clock);
    var first :| IsOldest(tracker, first) && Evict(tracker, order).0 == Without(tracker, first);
    OldestWentFirst(lim, tracker, first, Evict(tracker, order).1, marks, clock, now, k);
  }

  /**
    When some entries have gone and others stay, the eviction takes one that the window still holds after the
    new mark, the last of `marks`.
  */
  lemma PartialDropLosesOne(lim: Limits, tracker: Entries, order: seq<Record>, marks: seq<Mark>, clock: nat, now: nat)
    returns (lost: string)
    requires marks != [] && Ordered(Front(marks), clock) && EvictsToRoom(lim, tracker, order, Front(marks), clock)
    requires !DropsAllOrNone(tracker, now)
    ensures lost in tracker && lost !in Evict(Retained(tracker, now), order).0 && Marked(lim, marks, lost, now)
  {
    var live, before := Retained(tracker, now), Front(marks);
    RetainedLinked(lim, tracker, order, before, now);
    EvictTakesFirst(lim, live, order, before);
    lost :| lost in live && Evict(live, order).0 == Without(live, lost);
    SurvivorsHaveRoom(lim, tracker, order, before, clock, now, lost);
    assert InWindow(lim, marks, tracker[lost].seqNo);
  }

  /** The evictor does not find the entry it has popped if a cleanup has dropped another one. */
  lemma PoppedIsGone(lim: Limits, tracker: Entries, r: Record, order: seq<Record>, marks: seq<Mark>, clock: nat,
                     now: nat)
    requires Linked(lim, tracker, [r] + order, marks) && Ordered(marks, clock) && Retained(tracker, now) != tracker
    ensures !IsCurrent(Retained(tracker, now), r)
  {
    if IsCurrent(Retained(tracker, now), r) {
      OnlyTheOldestGoes(lim, tracker, [r] + order, marks, clock, r.key);
    }
  }

  /** The first caller's next `n` steps, with everybody else standing still. */
  function Proceed(lim: Limits, w: Watched, now: nat, n: nat): Watched
    decreases n
  {
    if n == 0 then w else Proceed(lim, Watch(lim, w, IT.Advance(0, now)), now, n - 1)
  }

  /** The caller is past its cleanup, or idle. */
  predicate PastCleanup(pc: IT.Pc) {
    pc.Idle? || AboutToEvict(pc) || pc.EvictRemove? || pc.AtFetch? || pc.AtInsert? || pc.AtPush?
  }

  /** The first caller is past its lookup, and it will not move the clock either. */
  predicate Quiet(w: Watched, now: nat) {
    w.sys.pcs != [] && (PastCleanup(w.sys.pcs[0]) || (!w.sys.pcs[0].AtGet? && now == w.clock))
  }

  /** Its steps move no clock and accept nothing. */
  lemma QuietStep(lim: Limits, w: Watched, now: nat)
    requires Quiet(w, now)
    ensures var next := Watch(lim, w, IT.Advance(0, now));
            next == w.(sys := IT.Step(lim, w.sys, IT.Advance(0, now))) && Quiet(next, now)
    ensures OnTime(w, IT.Advance(0, now)) && Discreet(w.sys, IT.Advance(0, now))
  {
  }

  lemma {:induction false} ReachedAlone(lim: Limits, callers: nat, w: Watched, calm: bool, now: nat, n: nat)
    requires Reached(lim, callers, w, calm) && Quiet(w, now)
    ensures Reached(lim, callers, Proceed(lim, w, now, n), calm)
    decreases n
  {
    if n > 0 {
      QuietStep(lim, w, now);
      ReachedOn(lim, callers, w, calm, IT.Advance(0, now));
      ReachedAlone(lim, callers, Watch(lim, w, IT.Advance(0, now)), calm, now, n - 1);
    }
  }

  lemma {:induction false} ProceedIsResume(lim: Limits, w: Watched, now: nat, n: nat)
    requires Quiet(w, now)
    ensures Proceed(lim, w, now, n) == w.(sys := IT.Resume(lim, w.sys, IT.Advances(0, now, n)))
    decreases n
  {
    if n > 0 {
      var next := Watch(lim, w, IT.Advance(0, now));
      QuietStep(lim, w, now);
      ProceedIsResume(lim, next, now, n - 1);
      assert IT.Advances(0, now, n)[1..] == IT.Advances(0, now, n - 1);
    }
  }

  lemma EvictorLands(lim: Limits, s: IT.System, now: nat)
    requires |s.pcs| == 1 && AboutToEvict(s.pcs[0]) && IT.MutexOwned(s)
    requires s.pcs[0].EvictLookup? ==> !IsCurrent(s.ix.tracker, s.pcs[0].popped)
    ensures var (tracker, order, _) := Evict(s.ix.tracker, s.ix.order);
            IT.Leads(lim, 0, now, s, IT.Landed(lim, s, 0, tracker, order, s.pcs[0].key, s.pcs[0].now))
  {
    var (tracker, order, _) := Evict(s.ix.tracker, s.ix.order);
    var key, t := s.pcs[0].key, s.pcs[0].now;
    if s.pcs[0].EvictPop? {
      IT.EvictionLands(lim, s, 0, key, t, now);
    } else {
      var next := IT.Advanced(lim, s, 0, now);
      IT.EvictionLands(lim, next, 0, key, t, now);
      assert IT.Landed(lim, next, 0, tracker, order, key, t) == IT.Landed(lim, s, 0, tracker, order, key, t);
      IT.StepLeads(lim, 0, now, s, IT.Landed(lim, s, 0, tracker, order, key, t));
    }
  }

  /** An idle caller that calls at `now` and looks its key up at once misses an unexpired mark in the window. */
  ghost predicate WouldLetThrough(lim: Limits, w: Watched, p: nat, key: string, now: nat) {
    && p < |w.sys.pcs| && w.sys.pcs[p].Idle? && w.clock <= now
    && !IsDuplicate(w.sys.ix.tracker, key, now) && Marked(lim, w.marks, key, now)
  }

  lemma EvictorProceeds(lim: Limits, w: Watched, now: nat) returns (n: nat)
    requires |w.sys.pcs| == 1 && AboutToEvict(w.sys.pcs[0]) && IT.MutexOwned(w.sys)
    requires w.sys.pcs[0].EvictLookup? ==> !IsCurrent(w.sys.ix.tracker, w.sys.pcs[0].popped)
    ensures var left, pc := Evict(w.sys.ix.tracker, w.sys.ix.order), w.sys.pcs[0];
            Proceed(lim, w, now, n) == w.(sys := IT.Landed(lim, w.sys, 0, left.0, left.1, pc.key, pc.now))
  {
    EvictorLands(lim, w.sys, now);
    var left, pc := Evict(w.sys.ix.tracker, w.sys.ix.order), w.sys.pcs[0];
    n :| IT.Resume(lim, w.sys, IT.Advances(0, now, n)) == IT.Landed(lim, w.sys, 0, left.0, left.1, pc.key, pc.now);
    ProceedIsResume(lim, w, now, n);
  }

  /** The queue with the record that the caller has popped and not yet looked up. */
  function Unread(s: IT.System): seq<Record>
    requires s.pcs != []
  {
    if s.pcs[0].EvictLookup? then [s.pcs[0].popped] + s.ix.order else s.ix.order
  }

  /** Evicting would make room for the call that the caller is in. */
  ghost predicate Evicting(lim: Limits, w: Watched) {
    && |w.sys.pcs| == 1 && AboutToEvict(w.sys.pcs[0]) && w.marks != []
    && w.sys.pcs[0].key !in w.sys.ix.tracker && Last(w.marks) == Mark(w.sys.pcs[0].key, w.sys.pcs[0].now)
    && EvictsToRoom(lim, w.sys.ix.tracker, Unread(w.sys), Front(w.marks), w.clock) && Ordered(Front(w.marks), w.clock)
  }

  lemma FollowsEvicting(lim: Limits, w: Watched)
    requires Follows(lim, w) && AboutToEvict(w.sys.pcs[0])
    ensures Evicting(lim, w)
  {
  }

  lemma PoppedIsSkipped(lim: Limits, w: Watched, now: nat)
    requires Evicting(lim, w) && Retained(w.sys.ix.tracker, now) != w.sys.ix.tracker
    ensures var pc, live := w.sys.pcs[0], Retained(w.sys.ix.tracker, now);
            && (pc.EvictLookup? ==> !IsCurrent(live, pc.popped))
            && Evict(live, w.sys.ix.order).0 == Evict(live, Unread(w.sys)).0
  {
    var pc, ix := w.sys.pcs[0], w.sys.ix;
    if pc.EvictLookup? {
      PoppedIsGone(lim, ix.tracker, pc.popped, ix.order, Front(w.marks), w.clock, now);
      assert Unread(w.sys)[1..] == ix.order;
    }
  }

  /** A cleanup that drops some of the entries makes the eviction take one too many, which may then be repeated. */
  lemma PartialDropLetsThrough(lim: Limits, w: Watched, now: nat) returns (n: nat, lost: string)
    requires Evicting(lim, w) && IT.MutexOwned(w.sys) && !DropsAllOrNone(w.sys.ix.tracker, now)
    ensures WouldLetThrough(lim, Proceed(lim, Watch(lim, w, IT.Clean(now)), now, n), 0, lost, now)
  {
    lost := PartialDropLosesOne(lim, w.sys.ix.tracker, Unread(w.sys), w.marks, w.clock, now);
    PoppedIsSkipped(lim, w, now);
    if now <= w.clock {
      OvertakenDropsNothing(w.sys.ix.tracker, w.clock, now);
    }
    n := EvictorProceeds(lim, Watch(lim, w, IT.Clean(now)), now);
  }

  /**
    When a cleanup comes between the decision to evict and the lookup, the caller's remaining steps leave the
    answers those of the window if and only if the cleanup finds all entries expired, or none.
  */
  lemma CleanBeforeEvictionHarmsIff(lim: Limits, w: Watched, now: nat)
    requires Reached(lim, 1, w, true) && w.sys.pcs != [] && AboutToEvict(w.sys.pcs[0])
    ensures DropsAllOrNone(w.sys.ix.tracker, now)
       <==> forall n: nat :: AnswersAsWindow(lim, Proceed(lim, Watch(lim, w, IT.Clean(now)), now, n))
  {
    var cleaned := Watch(lim, w, IT.Clean(now));
    if DropsAllOrNone(w.sys.ix.tracker, now) {
      ReachedOn(lim, 1, w, true, IT.Clean(now));
      forall n: nat ensures AnswersAsWindow(lim, Proceed(lim, cleaned, now, n)) {
        ReachedAlone(lim, 1, cleaned, true, now, n);
        OneCallerAnswersAsWindow(lim, Proceed(lim, cleaned, now, n), true);
      }
    } else {
      ReachedFollows(lim, w, true);
      ReachedSystem(lim, 1, w, true);
      FollowsEvicting(lim, w);
      var n, lost := PartialDropLetsThrough(lim, w, now);
      assert !AnswersAsWindow(lim, Proceed(lim, cleaned, now, n));
    }
  }

  // ----- Which limits make one caller safe, and when a repeated request is let through at all -----

  /** The instant at which the `m`-th id is marked: the first one a tick before the others. */
  function MarkTime(m: nat): nat {
    if m == 0 then 0 else 1
  }

  /** `m` ids marked one after the other by an idle caller, the empty one first. */
  ghost predicate Filled(lim: Limits, w: Watched, m: nat) {
    && w.sys.pcs == [IT.Idle] && w.sys.holder == None && w.clock <= 1 && IT.Holding(w.sys, m)
    && (m > 0 ==> "" in w.sys.ix.tracker)
    && forall k :: k in w.sys.ix.tracker ==> w.sys.ix.tracker[k].expiresAt == MarkTime(|k|) + lim.ttl
  }

  lemma CallReached(lim: Limits, w: Watched, calm: bool, key: string, now: nat)
    requires Reached(lim, 1, w, calm) && w.sys.pcs == [IT.Idle] && w.clock <= now
    ensures Reached(lim, 1, Watched(IT.Goto(w.sys, 0, IT.AtGet(key, now)), w.marks, now), calm)
  {
    ReachedOn(lim, 1, w, calm, IT.Call(0, key, now));
  }

  /** A caller that does not find its key. */
  lemma LookupReached(lim: Limits, w: Watched, key: string, now: nat)
    requires Reached(lim, 1, w, true) && w.sys.pcs == [IT.Idle] && w.clock <= now && key !in w.sys.ix.tracker
    ensures Reached(lim, 1, Watched(IT.Goto(w.sys, 0, IT.AtLen(key, now)), w.marks + [Mark(key, now)], now), true)
  {
    CallReached(lim, w, true, key, now);
    var called := Watched(IT.Goto(w.sys, 0, IT.AtGet(key, now)), w.marks, now);
    ReachedOn(lim, 1, called, true, IT.Advance(0, now));
    assert IT.Goto(called.sys, 0, IT.AtLen(key, now)) == IT.Goto(w.sys, 0, IT.AtLen(key, now));
  }

  lemma MarksFresh(lim: Limits, w: Watched, key: string, now: nat) returns (t: Watched)
    requires Reached(lim, 1, w, true) && w.sys.pcs == [IT.Idle] && w.sys.holder == None && w.clock <= now
    requires key !in w.sys.ix.tracker
    ensures Reached(lim, 1, t, true) && t.sys.pcs == [IT.Idle] && t.sys.holder == None && t.clock == now
    ensures t.sys.ix.tracker
         == MadeRoom(lim, w.sys.ix.tracker, w.sys.ix.order, now).0[key := Entry(now + lim.ttl, w.sys.ix.next)]
    ensures t.marks == w.marks + [Mark(key, now)]
  {
    LookupReached(lim, w, key, now);
    var looked := Watched(IT.Goto(w.sys, 0, IT.AtLen(key, now)), w.marks + [Mark(key, now)], now);
    var (tracker, order, _) := MadeRoom(lim, w.sys.ix.tracker, w.sys.ix.order, now);
    var landed := IT.Landed(lim, looked.sys, 0, tracker, order, key, now);
    IT.LenLands(lim, looked.sys, 0, key, now, now);
    var n: nat :| IT.Resume(lim, looked.sys, IT.Advances(0, now, n)) == landed;
    ProceedIsResume(lim, looked, now, n);
    ReachedAlone(lim, 1, looked, true, now, n);
    t := looked.(sys := landed);
  }

  /** One more id, while there is room. */
  lemma FillsOne(lim: Limits, w: Watched, m: nat) returns (t: Watched)
    requires Reached(lim, 1, w, true) && Filled(lim, w, m) && m < lim.maxEntries && w.clock <= MarkTime(m)
    ensures Reached(lim, 1, t, true) && Filled(lim, t, m + 1) && t.clock == MarkTime(m)
  {
    t := MarksFresh(lim, w, Name(m), MarkTime(m));
    assert t.sys.ix.tracker.Keys == w.sys.ix.tracker.Keys + {Name(m)};
    assert m == 0 ==> Name(m) == "";
  }

  lemma {:induction false} FillsUp(lim: Limits, m: nat) returns (w: Watched)
    requires m <= lim.maxEntries
    ensures Reached(lim, 1, w, true) && Filled(lim, w, m) && (m <= 1 ==> w.clock == 0)
  {
    if m == 0 {
      StartReached(lim, 1);
      w := Watched(IT.Start(1), [], 0);
    } else {
      var v := FillsUp(lim, m - 1);
      w := FillsOne(lim, v, m - 1);
    }
  }

  /** A step that only takes the caller from one point to another. */
  lemma StepReached(lim: Limits, w: Watched, from: IT.Pc, to: IT.Pc)
    requires |w.sys.pcs| == 1 && !from.AtGet? && Reached(lim, 1, w.(sys := IT.Goto(w.sys, 0, from)), true)
    requires IT.Advanced(lim, IT.Goto(w.sys, 0, from), 0, w.clock) == IT.Goto(IT.Goto(w.sys, 0, from), 0, to)
    ensures Reached(lim, 1, w.(sys := IT.Goto(w.sys, 0, to)), true)
  {
    ReachedOn(lim, 1, w.(sys := IT.Goto(w.sys, 0, from)), true, IT.Advance(0, w.clock));
    assert IT.Goto(IT.Goto(w.sys, 0, from), 0, to) == IT.Goto(w.sys, 0, to);
  }

  /** A caller that finds the map full of unexpired entries. */
  lemma FindsNoRoom(lim: Limits, w: Watched, key: string, now: nat)
    requires Reached(lim, 1, w, true) && w.sys.pcs == [IT.Idle] && w.clock <= now && key !in w.sys.ix.tracker
    requires Retained(w.sys.ix.tracker, now) == w.sys.ix.tracker && |w.sys.ix.tracker| >= lim.maxEntries
    ensures Reached(lim, 1, Watched(IT.Goto(w.sys, 0, IT.AtLock(key, now)), w.marks + [Mark(key, now)], now), true)
  {
    LookupReached(lim, w, key, now);
    var looked := Watched(w.sys, w.marks + [Mark(key, now)], now);
    StepReached(lim, looked, IT.AtLen(key, now), IT.AtCleanup(key, now));
    StepReached(lim, looked, IT.AtCleanup(key, now), IT.AtRetain(key, now, now));
    StepReached(lim, looked, IT.AtRetain(key, now, now), IT.AtLenAgain(key, now));
    StepReached(lim, looked, IT.AtLenAgain(key, now), IT.AtLock(key, now));
  }

  /** A caller about to evict from a map of ids of which one expires before the others. */
  lemma AboutToEvictMixed(lim: Limits) returns (w: Watched)
    requires !Small(lim)
    ensures Reached(lim, 1, w, true) && w.clock <= lim.ttl
    ensures w.sys.pcs != [] && w.sys.pcs[0].AtLock? && !DropsAllOrNone(w.sys.ix.tracker, lim.ttl)
  {
    var key := Name(lim.maxEntries);
    var full := FillsUp(lim, lim.maxEntries);
    NotAllOrNone(lim, full);
    w := Watched(IT.Goto(full.sys, 0, IT.AtLock(key, 1)), full.marks + [Mark(key, 1)], 1);
    assert Reached(lim, 1, w, true) by {
      assert Retained(full.sys.ix.tracker, 1) == full.sys.ix.tracker;
      FindsNoRoom(lim, full, key, 1);
    }
  }

  lemma NotAllOrNone(lim: Limits, w: Watched)
    requires Filled(lim, w, lim.maxEntries) && !Small(lim)
    ensures !DropsAllOrNone(w.sys.ix.tracker, lim.ttl)
  {
    var tracker := w.sys.ix.tracker;
    assert "" in tracker && "" !in Retained(tracker, lim.ttl);
    assert |tracker.Keys - {""}| == |tracker| - 1;
    var k :| k in tracker.Keys - {""};
    assert k in Retained(tracker, lim.ttl);
  }

  /** A caller about to look its key up misses a mark in the window that is unexpired at the newest reading. */
  ghost predicate LetsThrough(lim: Limits, w: Watched, p: nat) {
    && p < |w.sys.pcs| && w.sys.pcs[p].AtGet?
    && !IsDuplicate(w.sys.ix.tracker, w.sys.pcs[p].key, w.sys.pcs[p].now)
    && Marked(lim, w.marks, w.sys.pcs[p].key, w.clock)
  }

  /** An idle caller that would be let through calls and gets as far as its lookup. */
  lemma ReachesLookup(lim: Limits, callers: nat, w: Watched, p: nat, key: string, now: nat) returns (t: Watched)
    requires Reached(lim, callers, w, false) && WouldLetThrough(lim, w, p, key, now)
    ensures Reached(lim, callers, t, false) && LetsThrough(lim, t, p)
  {
    ReachedOn(lim, callers, w, false, IT.Call(p, key, now));
    t := Watch(lim, w, IT.Call(p, key, now));
  }

  lemma OneCallerCanBeLetThrough(lim: Limits) returns (w: Watched)
    requires !Small(lim)
    ensures Reached(lim, 1, w, false) && LetsThrough(lim, w, 0)
  {
    var before := AboutToEvictMixed(lim);
    ReachedFollows(lim, before, true);
    ReachedSystem(lim, 1, before, true);
    FollowsEvicting(lim, before);
    var n, key := PartialDropLetsThrough(lim, before, lim.ttl);
    ReachedAnyway(lim, 1, before);
    ReachedOn(lim, 1, before, false, IT.Clean(lim.ttl));
    var cleaned := Watch(lim, before, IT.Clean(lim.ttl));
    ReachedAlone(lim, 1, cleaned, false, lim.ttl, n);
    w := ReachesLookup(lim, 1, Proceed(lim, cleaned, lim.ttl, n), 0, key, lim.ttl);
  }

  /**
    A single caller is answered as by the window at the newest reading, whatever the cleaner does, if and only
    if the map has room for at most one entry or entries live for at most one tick of the clock.
  */
  lemma OneCallerAnswersAsWindowIff(lim: Limits)
    ensures (forall w :: Reached(lim, 1, w, false) ==> AnswersAsWindow(lim, w)) <==> Small(lim)
  {
    if Small(lim) {
      forall w | Reached(lim, 1, w, false) ensures AnswersAsWindow(lim, w) {
        OneCallerAnswersAsWindow(lim, w, false);
      }
    } else {
      var w := OneCallerCanBeLetThrough(lim);
      assert !AnswersAsWindow(lim, w);
    }
  }

  /** Marks, and callers about to look up, have instants that the clock has read. */
  ghost predicate InThePast(w: Watched) {
    && (forall i :: 0 <= i < |w.marks| ==> w.marks[i].time <= w.clock)
    && forall p :: 0 <= p < |w.sys.pcs| && w.sys.pcs[p].AtGet? ==> w.sys.pcs[p].now <= w.clock
  }

  /** Only a call brings a caller to its lookup. */
  lemma WhenceLookup(lim: Limits, s: IT.System, a: IT.Action, p: nat)
    requires p < |IT.Step(lim, s, a).pcs| && IT.Step(lim, s, a).pcs[p].AtGet?
    ensures p < |s.pcs|
    ensures IT.Step(lim, s, a).pcs[p] == s.pcs[p]
         || (a.Call? && a.p == p && s.pcs[p].Idle? && IT.Step(lim, s, a).pcs[p].now == a.now)
  {
    IT.SameCallers(lim, s, a);
  }

  lemma StepInThePast(lim: Limits, w: Watched, a: IT.Action)
    requires OnTime(w, a) && InThePast(w)
    ensures InThePast(Watch(lim, w, a))
  {
    var t := IT.Step(lim, w.sys, a);
    assert w.clock <= ClockAfter(w.sys, w.clock, a);
    forall p | 0 <= p < |t.pcs| && t.pcs[p].AtGet? ensures t.pcs[p].now <= ClockAfter(w.sys, w.clock, a) {
      WhenceLookup(lim, w.sys, a, p);
    }
  }

  lemma {:induction false} HistoryInThePast(lim: Limits, callers: nat, run: seq<IT.Action>, states: seq<Watched>,
                                            calm: bool, i: nat)
    requires History(lim, callers, run, states, calm) && i < |states|
    ensures InThePast(states[i])
  {
    if i > 0 {
      HistoryInThePast(lim, callers, run, states, calm, i - 1);
      assert Stepped(lim, run, states, i - 1, calm);
      StepInThePast(lim, states[i - 1], run[i - 1]);
    }
  }

  lemma ReachedInThePast(lim: Limits, callers: nat, w: Watched, calm: bool)
    requires Reached(lim, callers, w, calm)
    ensures InThePast(w)
  {
    var run, states :| History(lim, callers, run, states, calm) && Last(states) == w;
    HistoryInThePast(lim, callers, run, states, calm, |run|);
  }

  /** One caller looks up between the other's reading and the other's lookup. */
  lemma AnotherCallerIsLetThrough(lim: Limits, callers: nat, key: string, later: nat) returns (w: Watched)
    requires callers >= 2
    ensures Reached(lim, callers, w, false) && w.clock == later && w.marks == [Mark(key, later)]
    ensures |w.sys.pcs| == callers && w.sys.pcs[0] == IT.AtGet(key, 0) && w.sys.ix == EMPTY
  {
    var start := Watched(IT.Start(callers), [], 0);
    StartReached(lim, callers);
    ReachedAnyway(lim, callers, start);
    ReachedOn(lim, callers, start, false, IT.Call(0, key, 0));
    var one := Watch(lim, start, IT.Call(0, key, 0));
    ReachedOn(lim, callers, one, false, IT.Call(1, key, later));
    var both := Watch(lim, one, IT.Call(1, key, later));
    ReachedOn(lim, callers, both, false, IT.Advance(1, later));
    w := Watch(lim, both, IT.Advance(1, later));
  }

  lemma RepeatLetThroughOnlyIf(lim: Limits, callers: nat, w: Watched, p: nat)
    requires Reached(lim, callers, w, false) && LetsThrough(lim, w, p)
    ensures lim.ttl > 0 && (callers >= 2 || (callers == 1 && !Small(lim)))
  {
    ReachedInThePast(lim, callers, w, false);
    ReachedSystem(lim, callers, w, false);
    if callers == 1 && Small(lim) {
      OneCallerAnswersAsWindow(lim, w, false);
    }
  }

  lemma RepeatLetThroughIf(lim: Limits, callers: nat) returns (w: Watched)
    requires lim.ttl > 0 && (callers >= 2 || (callers == 1 && !Small(lim)))
    ensures Reached(lim, callers, w, false) && LetsThrough(lim, w, 0)
  {
    if callers >= 2 {
      w := AnotherCallerIsLetThrough(lim, callers, "", 0);
      assert InWindow(lim, w.marks, 0);
    } else {
      w := OneCallerCanBeLetThrough(lim);
    }
  }

  /**
    A request that is marked among the last `max(1, max_entries)` accepted and unexpired at the newest reading
    can be let through again if and only if requests are kept at all and there is a second caller, or a single
    one that evicts while entries of different age expire.
  */
  lemma RepeatLetThroughIff(lim: Limits, callers: nat)
    ensures (exists w, p: nat :: Reached(lim, callers, w, false) && LetsThrough(lim, w, p))
       <==> lim.ttl > 0 && (callers >= 2 || (callers == 1 && !Small(lim)))
  {
    if w, p: nat :| Reached(lim, callers, w, false) && LetsThrough(lim, w, p) {
      RepeatLetThroughOnlyIf(lim, callers, w, p);
    } else if lim.ttl > 0 && (callers >= 2 || (callers == 1 && !Small(lim))) {
      var w := RepeatLetThroughIf(lim, callers);
      assert false;
    }
  }

  // ----- The instant a caller reads on entry -----

  /**
    A caller about to look its key up misses a mark in the window that was unexpired when the caller read the
    clock.
  */
  ghost predicate LetsThroughEarlyReader(lim: Limits, w: Watched, p: nat) {
    && p < |w.sys.pcs| && w.sys.pcs[p].AtGet?
    && !IsDuplicate(w.sys.ix.tracker, w.sys.pcs[p].key, w.sys.pcs[p].now)
    && Marked(lim, w.marks, w.sys.pcs[p].key, w.sys.pcs[p].now)
  }

  /**
    A single caller's answer can differ from the window at its own reading only by letting through, and does so
    exactly when the marks of its key that the window holds have expired by the newest reading.
  */
  lemma OwnReadingErrsIff(lim: Limits, w: Watched, calm: bool)
    requires Reached(lim, 1, w, calm) && (calm || Small(lim)) && w.sys.pcs != [] && w.sys.pcs[0].AtGet?
    ensures var pc := w.sys.pcs[0];
            && (IsDuplicate(w.sys.ix.tracker, pc.key, pc.now) ==> Marked(lim, w.marks, pc.key, pc.now))
            && (LetsThroughEarlyReader(lim, w, 0)
                <==> Marked(lim, w.marks, pc.key, pc.now) && !Marked(lim, w.marks, pc.key, w.clock))
  {
    OneCallerAnswersAsWindow(lim, w, calm);
  }

  /** The first id marked on a fresh index, whatever its capacity. */
  lemma FirstMark(lim: Limits, key: string) returns (w: Watched)
    ensures Reached(lim, 1, w, false) && w.sys.pcs == [IT.Idle] && w.clock == 0 && w.marks == [Mark(key, 0)]
    ensures w.sys.ix.tracker == map[key := Entry(lim.ttl, 0)]
  {
    StartReached(lim, 1);
    w := MarksFresh(lim, Watched(IT.Start(1), [], 0), key, 0);
    MakingRoomOnlyRemoves(lim, map[], [], 0);
    ReachedAnyway(lim, 1, w);
  }

  /** The caller reads the clock just before its key expires, and looks it up just after a cleanup has dropped it. */
  lemma EarlyReaderIsLetThrough(lim: Limits, key: string) returns (w: Watched)
    requires lim.ttl > 0
    ensures Reached(lim, 1, w, false) && LetsThroughEarlyReader(lim, w, 0)
  {
    var marked := FirstMark(lim, key);
    CallReached(lim, marked, false, key, lim.ttl - 1);
    var called := Watched(IT.Goto(marked.sys, 0, IT.AtGet(key, lim.ttl - 1)), marked.marks, lim.ttl - 1);
    ReachedOn(lim, 1, called, false, IT.Clean(lim.ttl));
    w := Watch(lim, called, IT.Clean(lim.ttl));
    assert InWindow(lim, w.marks, 0);
  }

  /** Entries that live for no time are not there for a single caller to miss. */
  lemma EarlyReaderOnlyIf(lim: Limits, callers: nat, w: Watched, p: nat)
    requires Reached(lim, callers, w, false) && LetsThroughEarlyReader(lim, w, p)
    ensures callers >= 2 || (callers == 1 && lim.ttl > 0)
  {
    ReachedSystem(lim, callers, w, false);
    if callers == 1 && lim.ttl == 0 {
      ReachedFollows(lim, w, false);
    }
  }

  /**
    Judged at the instant that the caller itself read, which is some steps before its lookup, a marked and
    unexpired request can be let through again whatever the capacity: if and only if there is a second caller,
    or a single one and requests are kept at all.
  */
  lemma EarlyReaderLetThroughIff(lim: Limits, callers: nat)
    ensures (exists w, p: nat :: Reached(lim, callers, w, false) && LetsThroughEarlyReader(lim, w, p))
       <==> callers >= 2 || (callers == 1 && lim.ttl > 0)
  {
    if w, p: nat :| Reached(lim, callers, w, false) && LetsThroughEarlyReader(lim, w, p) {
      EarlyReaderOnlyIf(lim, callers, w, p);
    } else if callers >= 2 {
      var w := AnotherCallerIsLetThrough(lim, callers, "", 1);
      assert InWindow(lim, w.marks, 0);
      assert LetsThroughEarlyReader(lim, w, 0);
    } else if callers == 1 && lim.ttl > 0 {
      var w := EarlyReaderIsLetThrough(lim, "");
      assert false;
    }
  }

  // ----- A mark lost to an eviction that looked up an older one -----

  /** Two callers and a map with room for one entry. */
  function Two(tracker: Entries, order: seq<Record>, next: nat, holder: Option<nat>, a: IT.Pc, b: IT.Pc,
               marks: seq<Mark>, clock: nat): Watched {
    Watched(IT.System(Index(tracker, order, next), holder, [a, b]), marks, clock)
  }

  lemma Moves(lim: Limits, w: Watched, a: IT.Action, t: Watched)
    requires Reached(lim, 2, w, false) && OnTime(w, a) && Watch(lim, w, a) == t
    ensures Reached(lim, 2, t, false)
  {
    ReachedOn(lim, 2, w, false, a);
  }

  lemma FirstMarked(lim: Limits, k: string)
    requires lim.maxEntries == 1
    ensures Reached(lim, 2, Two(map[k := Entry(lim.ttl, 0)], [Record(0, k)], 1, None, IT.Idle, IT.Idle,
                                [Mark(k, 0)], 0), false)
  {
    var idle, marks := IT.Idle, [Mark(k, 0)];
    var entered: Entries := map[k := Entry(lim.ttl, 0)];
    var start := Two(map[], [], 0, None, idle, idle, [], 0);
    assert Reached(lim, 2, start, false) by {
      StartReached(lim, 2);
      assert IT.Start(2) == start.sys;
      ReachedAnyway(lim, 2, start);
    }
    var called := Two(map[], [], 0, None, IT.AtGet(k, 0), idle, [], 0);
    assert Reached(lim, 2, called, false) by { Moves(lim, start, IT.Call(0, k, 0), called); }
    var looked := Two(map[], [], 0, None, IT.AtLen(k, 0), idle, marks, 0);
    assert Reached(lim, 2, looked, false) by { Moves(lim, called, IT.Advance(0, 0), looked); }
    var room := Two(map[], [], 0, None, IT.AtFetch(k, 0), idle, marks, 0);
    assert Reached(lim, 2, room, false) by { Moves(lim, looked, IT.Advance(0, 0), room); }
    var numbered := Two(map[], [], 1, None, IT.AtInsert(k, 0, 0), idle, marks, 0);
    assert Reached(lim, 2, numbered, false) by { Moves(lim, room, IT.Advance(0, 0), numbered); }
    var inserted := Two(entered, [], 1, None, IT.AtPush(k, 0, 0), idle, marks, 0);
    assert Reached(lim, 2, inserted, false) by { Moves(lim, numbered, IT.Advance(0, 0), inserted); }
    var pushed := Two(entered, [Record(0, k)], 1, None, idle, idle, marks, 0);
    assert Reached(lim, 2, pushed, false) by { Moves(lim, inserted, IT.Advance(0, 0), pushed); }
  }

  lemma SecondFindsFull(lim: Limits, k: string, x: string)
    requires lim.maxEntries == 1 && lim.ttl > 0 && k != x
    ensures Reached(lim, 2, Two(map[k := Entry(lim.ttl, 0)], [Record(0, k)], 1, None, IT.AtCleanup(x, 0), IT.Idle,
                                [Mark(k, 0), Mark(x, 0)], 0), false)
  {
    FirstMarked(lim, k);
    var idle, queue, marks := IT.Idle, [Record(0, k)], [Mark(k, 0), Mark(x, 0)];
    var one: Entries := map[k := Entry(lim.ttl, 0)];
    var marked := Two(one, queue, 1, None, idle, idle, [Mark(k, 0)], 0);
    var called := Two(one, queue, 1, None, IT.AtGet(x, 0), idle, [Mark(k, 0)], 0);
    assert Reached(lim, 2, called, false) by { Moves(lim, marked, IT.Call(0, x, 0), called); }
    var looked := Two(one, queue, 1, None, IT.AtLen(x, 0), idle, marks, 0);
    assert Reached(lim, 2, looked, false) by { Moves(lim, called, IT.Advance(0, 0), looked); }
    var full := Two(one, queue, 1, None, IT.AtCleanup(x, 0), idle, marks, 0);
    assert Reached(lim, 2, full, false) by { Moves(lim, looked, IT.Advance(0, 0), full); }
  }

  lemma SecondEvicting(lim: Limits, k: string, x: string)
    requires lim.maxEntries == 1 && lim.ttl > 0 && k != x
    ensures Reached(lim, 2, Two(map[k := Entry(lim.ttl, 0)], [], 1, Some(0), IT.EvictRemove(x, 0, Record(0, k)),
                                IT.Idle, [Mark(k, 0), Mark(x, 0)], 0), false)
  {
    SecondFindsFull(lim, k, x);
    var idle, r, queue, marks := IT.Idle, Record(0, k), [Record(0, k)], [Mark(k, 0), Mark(x, 0)];
    var one: Entries := map[k := Entry(lim.ttl, 0)];
    var full := Two(one, queue, 1, None, IT.AtCleanup(x, 0), idle, marks, 0);
    var drops := Two(one, queue, 1, None, IT.AtRetain(x, 0, 0), idle, marks, 0);
    assert Reached(lim, 2, drops, false) by { Moves(lim, full, IT.Advance(0, 0), drops); }
    assert Retained(one, 0) == one;
    var cleaned := Two(one, queue, 1, None, IT.AtLenAgain(x, 0), idle, marks, 0);
    assert Reached(lim, 2, cleaned, false) by { Moves(lim, drops, IT.Advance(0, 0), cleaned); }
    var evicts := Two(one, queue, 1, None, IT.AtLock(x, 0), idle, marks, 0);
    assert Reached(lim, 2, evicts, false) by { Moves(lim, cleaned, IT.Advance(0, 0), evicts); }
    var locked := Two(one, queue, 1, Some(0), IT.EvictPop(x, 0), idle, marks, 0);
    assert Reached(lim, 2, locked, false) by { Moves(lim, evicts, IT.Advance(0, 0), locked); }
    var popped := Two(one, [], 1, Some(0), IT.EvictLookup(x, 0, r), idle, marks, 0);
    assert Reached(lim, 2, popped, false) by { Moves(lim, locked, IT.Advance(0, 0), popped); }
    var found := Two(one, [], 1, Some(0), IT.EvictRemove(x, 0, r), idle, marks, 0);
    assert Reached(lim, 2, found, false) by { Moves(lim, popped, IT.Advance(0, 0), found); }
  }

  lemma ThirdRefreshes(lim: Limits, k: string, x: string)
    requires lim.maxEntries == 1 && lim.ttl > 0 && k != x
    ensures Reached(lim, 2, Two(map[k := Entry(2 * lim.ttl, 1)], [], 2, Some(0), IT.EvictRemove(x, 0, Record(0, k)),
                                IT.AtPush(k, lim.ttl, 1), [Mark(k, 0), Mark(x, 0), Mark(k, lim.ttl)], lim.ttl), false)
  {
    SecondEvicting(lim, k, x);
    var t, removing, marks := lim.ttl, IT.EvictRemove(x, 0, Record(0, k)), [Mark(k, 0), Mark(x, 0), Mark(k, lim.ttl)];
    var one: Entries := map[k := Entry(t, 0)];
    var renewed: Entries := map[k := Entry(2 * t, 1)];
    var found := Two(one, [], 1, Some(0), removing, IT.Idle, [Mark(k, 0), Mark(x, 0)], 0);
    var called := Two(one, [], 1, Some(0), removing, IT.AtGet(k, t), [Mark(k, 0), Mark(x, 0)], t);
    assert Reached(lim, 2, called, false) by { Moves(lim, found, IT.Call(1, k, t), called); }
    var looked := Two(one, [], 1, Some(0), removing, IT.AtRemove(k, t), marks, t);
    assert Reached(lim, 2, looked, false) by { Moves(lim, called, IT.Advance(1, t), looked); }
    assert Without(one, k) == map[];
    var removed := Two(map[], [], 1, Some(0), removing, IT.AtLen(k, t), marks, t);
    assert Reached(lim, 2, removed, false) by { Moves(lim, looked, IT.Advance(1, t), removed); }
    var room := Two(map[], [], 1, Some(0), removing, IT.AtFetch(k, t), marks, t);
    assert Reached(lim, 2, room, false) by { Moves(lim, removed, IT.Advance(1, t), room); }
    var numbered := Two(map[], [], 2, Some(0), removing, IT.AtInsert(k, t, 1), marks, t);
    assert Reached(lim, 2, numbered, false) by { Moves(lim, room, IT.Advance(1, t), numbered); }
    var inserted := Two(renewed, [], 2, Some(0), removing, IT.AtPush(k, t, 1), marks, t);
    assert Reached(lim, 2, inserted, false) by { Moves(lim, numbered, IT.Advance(1, t), inserted); }
  }

  /**
    Looking a record up and removing its key are two steps: in between, the entry can expire and its key be
    marked afresh. Then the fresh entry goes, and with nobody in the middle of a call the key just marked is
    let through again.
  */
  lemma FreshMarkCanBeEvicted(lim: Limits, k: string, x: string)
    requires lim.maxEntries == 1 && lim.ttl > 0 && k != x
    ensures exists w ::
              && Reached(lim, 2, w, false) && w.sys.pcs == [IT.Idle, IT.Idle]
              && w.marks == [Mark(k, 0), Mark(x, 0), Mark(k, lim.ttl)]
              && WouldLetThrough(lim, w, 0, k, lim.ttl) && WouldLetThrough(lim, w, 1, k, lim.ttl)
  {
    ThirdRefreshes(lim, k, x);
    var t, idle, pushing := lim.ttl, IT.Idle, IT.AtPush(k, lim.ttl, 1);
    var marks := [Mark(k, 0), Mark(x, 0), Mark(k, t)];
    var renewed: Entries := map[k := Entry(2 * t, 1)];
    var other: Entries := map[x := Entry(t, 2)];
    var found := Two(renewed, [], 2, Some(0), IT.EvictRemove(x, 0, Record(0, k)), pushing, marks, t);
    assert Without(renewed, k) == map[];
    var removed := Two(map[], [], 2, None, IT.AtFetch(x, 0), pushing, marks, t);
    assert Reached(lim, 2, removed, false) by { Moves(lim, found, IT.Advance(0, 0), removed); }
    var numbered := Two(map[], [], 3, None, IT.AtInsert(x, 0, 2), pushing, marks, t);
    assert Reached(lim, 2, numbered, false) by { Moves(lim, removed, IT.Advance(0, 0), numbered); }
    var inserted := Two(other, [], 3, None, IT.AtPush(x, 0, 2), pushing, marks, t);
    assert Reached(lim, 2, inserted, false) by { Moves(lim, numbered, IT.Advance(0, 0), inserted); }
    var pushed := Two(other, [Record(2, x)], 3, None, idle, pushing, marks, t);
    assert Reached(lim, 2, pushed, false) by { Moves(lim, inserted, IT.Advance(0, 0), pushed); }
    var done := Two(other, [Record(2, x), Record(1, k)], 3, None, idle, idle, marks, t);
    assert Reached(lim, 2, done, false) by { Moves(lim, pushed, IT.Advance(1, t), done); }
    assert InWindow(lim, marks, 2);
  }
}
