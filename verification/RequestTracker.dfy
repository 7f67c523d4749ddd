/**
  The request deduplication index, driven by one caller at a time: a map from request ids to entries that
  expire, an insertion-order queue whose stale records are skipped lazily, and a sequence counter. It is
  shown to answer as a sliding window over the last accepted marks would.
*/
module RequestTracker {
  import opened Core

  /** `seqNo` is the insertion sequence number, which tells an entry apart from an earlier one with its key. */
  datatype Entry = Entry(expiresAt: nat, seqNo: nat)

  datatype Record = Record(seqNo: nat, key: string)

  type Entries = map<string, Entry>

  datatype Limits = Limits(ttl: nat, maxEntries: nat)

  datatype Index = Index(tracker: Entries, order: seq<Record>, next: nat)

  const EMPTY := Index(map[], [], 0)

  // ----- The operations, by value -----

  function Without(tracker: Entries, key: string): (rest: Entries)
    ensures rest.Keys == tracker.Keys - {key}
    ensures key !in tracker ==> rest == tracker
  {
    tracker - {key}
  }

  predicate IsCurrent(tracker: Entries, r: Record) {
    r.key in tracker && tracker[r.key].seqNo == r.seqNo
  }

  /** Pops records until a live entry has been removed; also gives the number of records popped. */
  function Evict(tracker: Entries, order: seq<Record>): (Entries, seq<Record>, nat) {
    if order == [] then (tracker, order, 0)
    else if IsCurrent(tracker, order[0]) then (Without(tracker, order[0].key), order[1..], 1)
    else var (t, o, n) := Evict(tracker, order[1..]); (t, o, n + 1)
  }

  function Retained(tracker: Entries, now: nat): Entries {
    map k | k in tracker && now < tracker[k].expiresAt :: tracker[k]
  }

  predicate IsDuplicate(tracker: Entries, key: string, now: nat) {
    key in tracker && now < tracker[key].expiresAt
  }

  /** Makes room for one more entry; `later` is what the clock reads if the expired entries are dropped. */
  function MadeRoom(lim: Limits, tracker: Entries, order: seq<Record>, later: nat): (Entries, seq<Record>, nat) {
    if |tracker| < lim.maxEntries then (tracker, order, 0)
    else
      var live := Retained(tracker, later);
      if |live| < lim.maxEntries then (live, order, 0) else Evict(live, order)
  }

  /** The index after a check, whether it was a duplicate, and how many queue records were popped. */
  function CheckedAndMarked(lim: Limits, ix: Index, key: string, now: nat, later: nat): (Index, bool, nat) {
    if IsDuplicate(ix.tracker, key, now) then (ix, true, 0)
    else
      var (tracker, order, pops) := MadeRoom(lim, Without(ix.tracker, key), ix.order, later);
      (Index(tracker[key := Entry(now + lim.ttl, ix.next)], order + [Record(ix.next, key)], ix.next + 1), false, pops)
  }

  class RequestTracker {
    const limits: Limits
    var tracker: Entries
    var order: seq<Record>
    var next: nat
    ghost var pops: nat

    function View(): Index
      reads this
    {
      Index(tracker, order, next)
    }

    constructor (limits: Limits)
      ensures View() == EMPTY && this.limits == limits && pops == 0
    {
      this.limits := limits;
      tracker, order, next, pops := map[], [], 0, 0;
    }

    method EvictOldest()
      modifies this`tracker, this`order, this`pops
      ensures (tracker, order, pops - old(pops)) == Evict(old(tracker), old(order))
    {
      while order != []
        invariant tracker == old(tracker) && pops >= old(pops)
        invariant var rest := Evict(tracker, order);
                  Evict(old(tracker), old(order)) == (rest.0, rest.1, rest.2 + (pops - old(pops)))
        decreases |order|
      {
        var r := order[0];
        order := order[1..];
        pops := pops + 1;
        if r.key in tracker && tracker[r.key].seqNo == r.seqNo {
          tracker := tracker - {r.key};
          return;
        }
      }
    }

    method CleanupExpired(now: nat)
      modifies this`tracker
      ensures tracker == Retained(old(tracker), now)
    {
      tracker := map k | k in tracker && now < tracker[k].expiresAt :: tracker[k];
    }

    /** Keeps the map under its capacity: expired entries first, then the oldest one. */
    method MakeRoom(later: nat)
      modifies this`tracker, this`order, this`pops
      ensures (tracker, order, pops - old(pops)) == MadeRoom(limits, old(tracker), old(order), later)
    {
      if |tracker| >= limits.maxEntries {
        CleanupExpired(later);
        if |tracker| >= limits.maxEntries {
          EvictOldest();
        }
      }
    }

    method CheckAndMark(key: string, now: nat, later: nat) returns (duplicate: bool)
      modifies this
      ensures (View(), duplicate, pops - old(pops)) == CheckedAndMarked(limits, old(View()), key, now, later)
    {
      if key in tracker {
        if now < tracker[key].expiresAt {
          return true;
        }
        tracker := tracker - {key};
      }
      MakeRoom(later);
      var seqNo := next;
      next := next + 1;
      tracker := tracker[key := Entry(now + limits.ttl, seqNo)];
      order := order + [Record(seqNo, key)];
      return false;
    }
  }

  // ----- Runs -----

  /** `Sweep` is the background task dropping expired entries. */
  datatype Op = Check(key: string, now: nat, later: nat) | Sweep(now: nat)

  function Step(lim: Limits, ix: Index, op: Op): (Index, bool, nat) {
    match op
    case Check(key, now, later) => CheckedAndMarked(lim, ix, key, now, later)
    case Sweep(now) => (ix.(tracker := Retained(ix.tracker, now)), false, 0)
  }

  function After(lim: Limits, run: seq<Op>): Index {
    if run == [] then EMPTY else Step(lim, After(lim, Front(run)), Last(run)).0
  }

  /** Whether each operation of a run was answered as a duplicate. */
  function Answers(lim: Limits, run: seq<Op>): seq<bool> {
    if run == [] then [] else Answers(lim, Front(run)) + [Step(lim, After(lim, Front(run)), Last(run)).1]
  }

  /** The records popped off the queue along a run. */
  function Pops(lim: Limits, run: seq<Op>): nat {
    if run == [] then 0 else Pops(lim, Front(run)) + Step(lim, After(lim, Front(run)), Last(run)).2
  }

  /** What the clock reads at the end of a run. */
  function Clock(run: seq<Op>): nat {
    if run == [] then 0 else match Last(run) { case Check(_, _, later) => later case Sweep(now) => now }
  }

  /** The clock never goes backwards along the run. */
  predicate Monotone(run: seq<Op>) {
    run != [] ==>
      Monotone(Front(run)) &&
      match Last(run) {
        case Check(_, now, later) => Clock(Front(run)) <= now <= later
        case Sweep(now) => Clock(Front(run)) <= now
      }
  }

  // ----- The specification: a sliding window of accepted marks -----

  datatype Mark = Mark(key: string, time: nat)

  function Capacity(lim: Limits): nat {
    AtLeastOne(lim.maxEntries)
  }

  predicate InWindow(lim: Limits, marks: seq<Mark>, i: int) {
    |marks| - Capacity(lim) <= i < |marks| && 0 <= i
  }

  /** Some mark of `key` is among the last accepted ones and has not expired. */
  predicate Marked(lim: Limits, marks: seq<Mark>, key: string, now: nat) {
    exists i :: 0 <= i < |marks| && InWindow(lim, marks, i) && marks[i].key == key && now < marks[i].time + lim.ttl
  }

  /** The accepted marks: whatever is checked and not marked in the window gets a mark of its own. */
  function Accepted(lim: Limits, run: seq<Op>): seq<Mark> {
    if run == [] then []
    else
      var marks := Accepted(lim, Front(run));
      match Last(run)
      case Check(key, now, _) => if Marked(lim, marks, key, now) then marks else marks + [Mark(key, now)]
      case Sweep(_) => marks
  }

  function WindowAnswers(lim: Limits, run: seq<Op>): seq<bool> {
    if run == [] then []
    else
      WindowAnswers(lim, Front(run))
      + [Last(run).Check? && Marked(lim, Accepted(lim, Front(run)), Last(run).key, Last(run).now)]
  }

  // ----- The correspondence -----

  ghost predicate Ordered(marks: seq<Mark>, clock: nat) {
    && (forall i :: 0 <= i < |marks| ==> marks[i].time <= clock)
    && forall i, j :: 0 <= i <= j < |marks| ==> marks[i].time <= marks[j].time
  }

  /** The queue is the suffix of the marks that eviction has not consumed. */
  ghost predicate Queued(order: seq<Record>, marks: seq<Mark>) {
    |order| <= |marks|
    && forall i :: 0 <= i < |order| ==>
         order[i] == Record(|marks| - |order| + i, marks[|marks| - |order| + i].key)
  }

  /** Every entry is one of the marks, with its record still queued. */
  ghost predicate Linked(lim: Limits, tracker: Entries, order: seq<Record>, marks: seq<Mark>) {
    && Queued(order, marks)
    && forall k :: k in tracker ==>
         && |marks| - |order| <= tracker[k].seqNo < |marks|
         && marks[tracker[k].seqNo].key == k
         && tracker[k].expiresAt == marks[tracker[k].seqNo].time + lim.ttl
  }

  /** Unexpired entries lie in the window, and unexpired marks of the window have their entry. */
  ghost predicate Covers(lim: Limits, tracker: Entries, marks: seq<Mark>, clock: nat) {
    && (forall k :: k in tracker && clock < tracker[k].expiresAt ==> InWindow(lim, marks, tracker[k].seqNo))
    && forall i :: 0 <= i < |marks| && InWindow(lim, marks, i) && clock < marks[i].time + lim.ttl
               ==> IsCurrent(tracker, Record(i, marks[i].key))
  }

  ghost predicate Inv(lim: Limits, ix: Index, marks: seq<Mark>, clock: nat) {
    && ix.next == |marks| && |ix.tracker| <= Capacity(lim)
    && Ordered(marks, clock)
    && Linked(lim, ix.tracker, ix.order, marks)
    && Covers(lim, ix.tracker, marks, clock)
  }

  /** The marks from `a` on are all in the map, so the map is at least that large. */
  lemma {:induction false} AllCurrentCount(tracker: Entries, marks: seq<Mark>, a: nat)
    requires a <= |marks|
    requires forall i :: a <= i < |marks| ==> IsCurrent(tracker, Record(i, marks[i].key))
    ensures |tracker| >= |marks| - a
    decreases |marks| - a
  {
    if a < |marks| {
      var rest := Without(tracker, marks[a].key);
      assert |rest| == |tracker| - 1 by {
        assert rest.Keys == tracker.Keys - {marks[a].key};
      }
      forall i | a + 1 <= i < |marks| ensures IsCurrent(rest, Record(i, marks[i].key)) {
        assert IsCurrent(tracker, Record(a, marks[a].key)) && IsCurrent(tracker, Record(i, marks[i].key));
      }
      AllCurrentCount(rest, marks, a + 1);
    }
  }

  /** Entries numbered between `a` and `b` are at most `b - a` many. */
  lemma {:induction false} NumberedCount(tracker: Entries, marks: seq<Mark>, a: nat, b: nat)
    requires a <= b <= |marks|
    requires forall k :: k in tracker ==> a <= tracker[k].seqNo < b && marks[tracker[k].seqNo].key == k
    ensures |tracker| <= b - a
    decreases b - a
  {
    if a == b {
      assert tracker.Keys == {};
    } else {
      var rest := Without(tracker, marks[a].key);
      assert rest.Keys == tracker.Keys - {marks[a].key};
      NumberedCount(rest, marks, a + 1, b);
    }
  }

  /** Eviction removes the entry with the smallest sequence number and consumes the queue up to its record. */
  lemma {:induction false} EvictTakesFirst(lim: Limits, tracker: Entries, order: seq<Record>, marks: seq<Mark>)
    requires Linked(lim, tracker, order, marks)
    ensures var (t, o, n) := Evict(tracker, order);
            && n + |o| == |order| && Linked(lim, t, o, marks)
            && if tracker == map[] then t == map[] && o == []
               else exists k :: k in tracker && t == Without(tracker, k)
                      && forall j :: j in t ==> tracker[k].seqNo < tracker[j].seqNo
  {
    if order == [] {
      if k :| k in tracker {
        assert false;
      }
    } else if IsCurrent(tracker, order[0]) {
      var k := order[0].key;
      var t := Without(tracker, k);
      forall j | j in t ensures tracker[k].seqNo < tracker[j].seqNo {
        assert j in tracker && marks[tracker[j].seqNo].key == j;
      }
    } else {
      forall k | k in tracker ensures |marks| - |order| < tracker[k].seqNo {
        assert order[0] == Record(|marks| - |order|, marks[|marks| - |order|].key);
      }
      EvictTakesFirst(lim, tracker, order[1..], marks);
    }
  }

  /** Under the invariant, being in the map unexpired is being marked in the window. */
  lemma DuplicateIffMarked(lim: Limits, ix: Index, marks: seq<Mark>, clock: nat, key: string, now: nat)
    requires Inv(lim, ix, marks, clock) && clock <= now
    ensures IsDuplicate(ix.tracker, key, now) <==> Marked(lim, marks, key, now)
  {
    if IsDuplicate(ix.tracker, key, now) {
      assert InWindow(lim, marks, ix.tracker[key].seqNo);
    }
    if Marked(lim, marks, key, now) {
      var i :| 0 <= i < |marks| && InWindow(lim, marks, i) && marks[i].key == key && now < marks[i].time + lim.ttl;
      assert IsCurrent(ix.tracker, Record(i, marks[i].key));
    }
  }

  /** What is left after making room is what one more mark needs. */
  ghost predicate HasRoom(lim: Limits, tracker: Entries, order: seq<Record>, marks: seq<Mark>, clock: nat) {
    && |tracker| < Capacity(lim)
    && Linked(lim, tracker, order, marks)
    && (forall k :: k in tracker && clock < tracker[k].expiresAt
                ==> |marks| + 1 - Capacity(lim) <= tracker[k].seqNo)
    && forall i :: 0 <= i < |marks| && |marks| + 1 - Capacity(lim) <= i && clock < marks[i].time + lim.ttl
               ==> IsCurrent(tracker, Record(i, marks[i].key))
  }

  lemma RoomBelowCapacity(lim: Limits, tracker: Entries, order: seq<Record>, marks: seq<Mark>, clock: nat)
    requires Ordered(marks, clock) && Linked(lim, tracker, order, marks) && Covers(lim, tracker, marks, clock)
    requires |tracker| < lim.maxEntries
    ensures HasRoom(lim, tracker, order, marks, clock)
  {
    var d := |marks| - Capacity(lim);
    if k :| k in tracker && clock < tracker[k].expiresAt && tracker[k].seqNo <= d {
      assert InWindow(lim, marks, tracker[k].seqNo);
      forall i | d <= i < |marks| ensures IsCurrent(tracker, Record(i, marks[i].key)) {
        assert marks[d].time <= marks[i].time;
        assert InWindow(lim, marks, i);
      }
      AllCurrentCount(tracker, marks, d);
      assert false;
    }
  }

  /** When the map is full of unexpired entries, the first of them is the mark about to leave the window. */
  lemma FirstOfFullLeavesWindow(lim: Limits, live: Entries, k: string, marks: seq<Mark>)
    requires k in live && lim.maxEntries <= |live|
    requires forall j :: j in live ==> live[j].seqNo < |marks| && marks[live[j].seqNo].key == j
    requires forall j :: j in live ==> live[k].seqNo <= live[j].seqNo && InWindow(lim, marks, live[j].seqNo)
    ensures live[k].seqNo == |marks| - Capacity(lim)
  {
    NumberedCount(live, marks, live[k].seqNo, |marks|);
    assert InWindow(lim, marks, live[k].seqNo);
  }

  lemma RoomWithout(lim: Limits, live: Entries, k: string, order: seq<Record>, marks: seq<Mark>, clock: nat)
    requires Covers(lim, live, marks, clock) && |live| <= Capacity(lim)
    requires forall j :: j in live ==> clock < live[j].expiresAt
    requires k in live && live[k].seqNo == |marks| - Capacity(lim)
    requires Linked(lim, Without(live, k), order, marks)
    requires forall j :: j in Without(live, k) ==> live[k].seqNo < live[j].seqNo
    ensures HasRoom(lim, Without(live, k), order, marks, clock)
  {
    var t := Without(live, k);
    forall i | 0 <= i < |marks| && |marks| + 1 - Capacity(lim) <= i && clock < marks[i].time + lim.ttl
      ensures IsCurrent(t, Record(i, marks[i].key))
    {
      assert InWindow(lim, marks, i);
    }
  }

  lemma RoomByEviction(lim: Limits, live: Entries, order: seq<Record>, marks: seq<Mark>, clock: nat)
    requires Linked(lim, live, order, marks) && Covers(lim, live, marks, clock)
    requires forall k :: k in live ==> clock < live[k].expiresAt
    requires lim.maxEntries <= |live| <= Capacity(lim)
    ensures var (t, o, _) := Evict(live, order); HasRoom(lim, t, o, marks, clock)
  {
    EvictTakesFirst(lim, live, order, marks);
    var (t, o, _) := Evict(live, order);
    if live == map[] {
      assert Capacity(lim) == 1;
    } else {
      var k :| k in live && t == Without(live, k) && forall j :: j in t ==> live[k].seqNo < live[j].seqNo;
      FirstOfFullLeavesWindow(lim, live, k, marks);
      RoomWithout(lim, live, k, o, marks, clock);
    }
  }

  /** Dropping what had expired `at` some instant that may be long past. */
  lemma RetainedKeeps(lim: Limits, tracker: Entries, order: seq<Record>, marks: seq<Mark>, clock: nat, at: nat,
                      later: nat)
    requires Linked(lim, tracker, order, marks) && Covers(lim, tracker, marks, clock) && clock <= later && at <= later
    ensures var live := Retained(tracker, at);
            Linked(lim, live, order, marks) && Covers(lim, live, marks, later) && |live| <= |tracker|
  {
    var live := Retained(tracker, at);
    Subset(live.Keys, tracker.Keys);
    forall i | 0 <= i < |marks| && InWindow(lim, marks, i) && later < marks[i].time + lim.ttl
      ensures IsCurrent(live, Record(i, marks[i].key))
    {
      assert IsCurrent(tracker, Record(i, marks[i].key));
    }
  }

  lemma {:induction false} Subset<T>(a: set<T>, b: set<T>)
    requires a <= b
    ensures |a| <= |b|
  {
    if a != {} {
      var x :| x in a;
      Subset(a - {x}, b - {x});
    }
  }

  lemma MadeRoomHasRoom(lim: Limits, tracker: Entries, order: seq<Record>, marks: seq<Mark>, clock: nat, later: nat)
    requires Ordered(marks, clock) && Linked(lim, tracker, order, marks) && Covers(lim, tracker, marks, clock)
    requires clock <= later && |tracker| <= Capacity(lim)
    ensures var (t, o, n) := MadeRoom(lim, tracker, order, later);
            HasRoom(lim, t, o, marks, later) && n + |o| == |order|
  {
    RetainedKeeps(lim, tracker, order, marks, clock, later, later);
    var live := Retained(tracker, later);
    if |tracker| < lim.maxEntries {
      assert Covers(lim, tracker, marks, later);
      RoomBelowCapacity(lim, tracker, order, marks, later);
    } else if |live| < lim.maxEntries {
      RoomBelowCapacity(lim, live, order, marks, later);
    } else {
      RoomByEviction(lim, live, order, marks, later);
      EvictTakesFirst(lim, live, order, marks);
    }
  }

  /** Dropping the expired entry of a key that is about to be marked again. */
  lemma DropExpired(lim: Limits, ix: Index, marks: seq<Mark>, clock: nat, key: string, now: nat)
    requires Inv(lim, ix, marks, clock) && clock <= now && !IsDuplicate(ix.tracker, key, now)
    ensures var t := Without(ix.tracker, key);
            && |t| <= Capacity(lim) && Ordered(marks, now)
            && Linked(lim, t, ix.order, marks) && Covers(lim, t, marks, now)
  {
    var t := Without(ix.tracker, key);
    Subset(t.Keys, ix.tracker.Keys);
    forall i | 0 <= i < |marks| && InWindow(lim, marks, i) && now < marks[i].time + lim.ttl
      ensures IsCurrent(t, Record(i, marks[i].key))
    {
      assert IsCurrent(ix.tracker, Record(i, marks[i].key));
    }
  }

  lemma MarkLinked(lim: Limits, tracker: Entries, order: seq<Record>, marks: seq<Mark>, key: string, now: nat)
    requires Linked(lim, tracker, order, marks)
    ensures Linked(lim, tracker[key := Entry(now + lim.ttl, |marks|)], order + [Record(|marks|, key)],
                   marks + [Mark(key, now)])
  {
  }

  lemma MarkCovers(lim: Limits, tracker: Entries, order: seq<Record>, marks: seq<Mark>, key: string, now: nat,
                   later: nat)
    requires HasRoom(lim, tracker, order, marks, later) && key !in tracker
    ensures Covers(lim, tracker[key := Entry(now + lim.ttl, |marks|)], marks + [Mark(key, now)], later)
  {
    var t := tracker[key := Entry(now + lim.ttl, |marks|)];
    var m := marks + [Mark(key, now)];
    forall i | 0 <= i < |m| && InWindow(lim, m, i) && later < m[i].time + lim.ttl
      ensures IsCurrent(t, Record(i, m[i].key))
    {
      if i < |marks| {
        assert IsCurrent(tracker, Record(i, marks[i].key));
      }
    }
  }

  lemma MarkRestores(lim: Limits, tracker: Entries, order: seq<Record>, marks: seq<Mark>, key: string, now: nat,
                     later: nat)
    requires HasRoom(lim, tracker, order, marks, later) && Ordered(marks, now) && now <= later
    requires key !in tracker
    ensures Inv(lim, Index(tracker[key := Entry(now + lim.ttl, |marks|)], order + [Record(|marks|, key)], |marks| + 1),
                marks + [Mark(key, now)], later)
  {
    MarkLinked(lim, tracker, order, marks, key, now);
    MarkCovers(lim, tracker, order, marks, key, now, later);
    assert tracker[key := Entry(now + lim.ttl, |marks|)].Keys == tracker.Keys + {key};
    assert Ordered(marks + [Mark(key, now)], later);
  }

  lemma MakingRoomOnlyRemoves(lim: Limits, tracker: Entries, order: seq<Record>, later: nat)
    ensures MadeRoom(lim, tracker, order, later).0.Keys <= tracker.Keys
  {
    EvictOnlyRemoves(Retained(tracker, later), order);
  }

  lemma EvictOnlyRemoves(tracker: Entries, order: seq<Record>)
    ensures Evict(tracker, order).0.Keys <= tracker.Keys
  {
  }

  lemma CheckKeepsInv(lim: Limits, ix: Index, marks: seq<Mark>, clock: nat, key: string, now: nat, later: nat)
    requires Inv(lim, ix, marks, clock) && clock <= now <= later
    ensures var (ix', duplicate, pops) := CheckedAndMarked(lim, ix, key, now, later);
            && duplicate == Marked(lim, marks, key, now)
            && Inv(lim, ix', if duplicate then marks else marks + [Mark(key, now)], later)
            && pops + |ix'.order| == |ix.order| + (if duplicate then 0 else 1)
  {
    DuplicateIffMarked(lim, ix, marks, clock, key, now);
    if IsDuplicate(ix.tracker, key, now) {
      assert Covers(lim, ix.tracker, marks, later);
    } else {
      MarkKeepsInv(lim, ix, marks, clock, key, now, later);
    }
  }

  lemma RoomAfterDrop(lim: Limits, ix: Index, marks: seq<Mark>, clock: nat, key: string, now: nat, later: nat)
    requires Inv(lim, ix, marks, clock) && clock <= now <= later && !IsDuplicate(ix.tracker, key, now)
    ensures var (t, o, pops) := MadeRoom(lim, Without(ix.tracker, key), ix.order, later);
            HasRoom(lim, t, o, marks, later) && pops + |o| == |ix.order| && key !in t
    ensures Ordered(marks, now)
  {
    DropExpired(lim, ix, marks, clock, key, now);
    MadeRoomHasRoom(lim, Without(ix.tracker, key), ix.order, marks, now, later);
    MakingRoomOnlyRemoves(lim, Without(ix.tracker, key), ix.order, later);
  }

  lemma MarkKeepsInv(lim: Limits, ix: Index, marks: seq<Mark>, clock: nat, key: string, now: nat, later: nat)
    requires Inv(lim, ix, marks, clock) && clock <= now <= later && !IsDuplicate(ix.tracker, key, now)
    ensures var (ix', _, pops) := CheckedAndMarked(lim, ix, key, now, later);
            Inv(lim, ix', marks + [Mark(key, now)], later) && pops + |ix'.order| == |ix.order| + 1
  {
    var (t, o, pops) := MadeRoom(lim, Without(ix.tracker, key), ix.order, later);
    var marked := Index(t[key := Entry(now + lim.ttl, ix.next)], o + [Record(ix.next, key)], ix.next + 1);
    assert CheckedAndMarked(lim, ix, key, now, later) == (marked, false, pops);
    assert Inv(lim, marked, marks + [Mark(key, now)], later) && pops + |o| == |ix.order| by {
      RoomAfterDrop(lim, ix, marks, clock, key, now, later);
      MarkRestores(lim, t, o, marks, key, now, later);
    }
  }

  lemma {:induction false} EveryRunKeepsInv(lim: Limits, run: seq<Op>)
    requires Monotone(run)
    ensures Inv(lim, After(lim, run), Accepted(lim, run), Clock(run))
    ensures Answers(lim, run) == WindowAnswers(lim, run)
    ensures Pops(lim, run) + |After(lim, run).order| == |Accepted(lim, run)|
  {
    if run != [] {
      EveryRunKeepsInv(lim, Front(run));
      var ix, marks, clock := After(lim, Front(run)), Accepted(lim, Front(run)), Clock(Front(run));
      match Last(run)
      case Check(key, now, later) => CheckKeepsInv(lim, ix, marks, clock, key, now, later);
      case Sweep(now) => RetainedKeeps(lim, ix.tracker, ix.order, marks, clock, now, now);
    }
  }

  // ----- Main results -----

  /**
    In every run under a monotone clock, for every ttl and capacity, a check is answered as a duplicate
    exactly when an unexpired mark of its key is among the last `max(1, max_entries)` accepted marks.
  */
  lemma {:induction false} AnswersAsSlidingWindow(lim: Limits, run: seq<Op>)
    requires Monotone(run)
    ensures Answers(lim, run) == WindowAnswers(lim, run)
  {
    EveryRunKeepsInv(lim, run);
  }

  /**
    In every such run: the map never exceeds `max(1, max_entries)`; the queue is strictly increasing, so a
    record occurs once; every entry has its record queued; and queue length plus pops equals the sequence
    counter, which counts the accepted marks, so there are never more pops than marks.
  */
  lemma {:induction false} IndexConservation(lim: Limits, run: seq<Op>)
    requires Monotone(run)
    ensures |After(lim, run).tracker| <= Capacity(lim)
    ensures StrictlyIncreasing(After(lim, run).order)
    ensures forall k :: k in After(lim, run).tracker ==>
              Record(After(lim, run).tracker[k].seqNo, k) in After(lim, run).order
    ensures |After(lim, run).order| + Pops(lim, run) == After(lim, run).next == |Accepted(lim, run)|
  {
    EveryRunKeepsInv(lim, run);
    QueueHoldsEntries(lim, After(lim, run), Accepted(lim, run), Clock(run));
  }

  /** What the background task leaves: the keys marked in the window at that instant and no other, none expired. */
  lemma {:induction false} SweepLeavesMarked(lim: Limits, run: seq<Op>, now: nat, key: string)
    requires Monotone(run) && Clock(run) <= now
    ensures var swept := After(lim, run + [Sweep(now)]);
            && (key in swept.tracker <==> Marked(lim, Accepted(lim, run), key, now))
            && (key in swept.tracker ==> swept.tracker[key].expiresAt > now)
            && swept.order == After(lim, run).order
  {
    EveryRunKeepsInv(lim, run);
    AfterOne(lim, run, Sweep(now));
    DuplicateIffMarked(lim, After(lim, run), Accepted(lim, run), Clock(run), key, now);
  }

  ghost predicate StrictlyIncreasing(order: seq<Record>) {
    forall i, j :: 0 <= i < j < |order| ==> order[i].seqNo < order[j].seqNo
  }

  lemma QueueHoldsEntries(lim: Limits, ix: Index, marks: seq<Mark>, clock: nat)
    requires Inv(lim, ix, marks, clock)
    ensures StrictlyIncreasing(ix.order)
    ensures forall k :: k in ix.tracker ==> Record(ix.tracker[k].seqNo, k) in ix.order
  {
    forall k | k in ix.tracker ensures Record(ix.tracker[k].seqNo, k) in ix.order {
      assert ix.order[ix.tracker[k].seqNo - (|marks| - |ix.order|)] == Record(ix.tracker[k].seqNo, k);
    }
  }

  ghost predicate IsOldest(live: Entries, k: string) {
    k in live && forall j :: j in live && j != k ==>
      live[k].seqNo < live[j].seqNo && live[k].expiresAt <= live[j].expiresAt
  }

  /** In every such run, evicting from what is left of the map removes the entry oldest by number and by expiry. */
  lemma {:induction false} EvictsTheOldest(lim: Limits, run: seq<Op>, live: Entries)
    requires Monotone(run)
    requires live != map[]
    requires forall k :: k in live ==> k in After(lim, run).tracker && live[k] == After(lim, run).tracker[k]
    ensures exists k :: IsOldest(live, k) && Evict(live, After(lim, run).order).0 == Without(live, k)
  {
    EveryRunKeepsInv(lim, run);
    VictimIsOldest(lim, live, After(lim, run).order, Accepted(lim, run), Clock(run));
  }

  lemma VictimIsOldest(lim: Limits, live: Entries, order: seq<Record>, marks: seq<Mark>, clock: nat)
    requires live != map[] && Linked(lim, live, order, marks) && Ordered(marks, clock)
    ensures exists k :: IsOldest(live, k) && Evict(live, order).0 == Without(live, k)
  {
    EvictTakesFirst(lim, live, order, marks);
    var t := Evict(live, order).0;
    var k :| k in live && t == Without(live, k) && forall j :: j in t ==> live[k].seqNo < t[j].seqNo;
    forall j | j in live && j != k ensures live[k].seqNo < live[j].seqNo && live[k].expiresAt <= live[j].expiresAt {
      assert j in t;
      assert marks[live[k].seqNo].time <= marks[live[j].seqNo].time;
    }
  }

  // ----- First in, first out against least recently used -----

  predicate Uses(op: Op, key: string) {
    op.Check? && op.key == key
  }

  /** The positions in the run of the checks that were accepted, one for each mark. */
  function MarkedBy(lim: Limits, run: seq<Op>): seq<nat> {
    if run == [] then []
    else MarkedBy(lim, Front(run)) + (if Accepted(lim, run) == Accepted(lim, Front(run)) then [] else [|run| - 1])
  }

  lemma {:induction false} MarksByPosition(lim: Limits, run: seq<Op>)
    ensures var at, marks := MarkedBy(lim, run), Accepted(lim, run);
            && |at| == |marks|
            && (forall i :: 0 <= i < |at| ==> at[i] < |run| && Uses(run[at[i]], marks[i].key))
            && forall i, j :: 0 <= i < j < |at| ==> at[i] < at[j]
  {
    if run != [] {
      MarksByPosition(lim, Front(run));
      assert Last(run).Check? && Accepted(lim, run) != Accepted(lim, Front(run)) ==>
               |Accepted(lim, run)| == |Accepted(lim, Front(run))| + 1;
    }
  }

  /** `k` is used in the run, and every other entry of `live` is used after the last use of `k`. */
  ghost predicate LeastRecentlyUsed(live: Entries, run: seq<Op>, k: string) {
    exists i :: 0 <= i < |run| && Uses(run[i], k)
      && (forall n :: i < n < |run| ==> !Uses(run[n], k))
      && forall j :: j in live && j != k ==> exists n :: i < n < |run| && Uses(run[n], j)
  }

  /** Whatever eviction leaves tells which entry was the oldest. */
  lemma OnlyTheOldestGoes(lim: Limits, live: Entries, order: seq<Record>, marks: seq<Mark>, clock: nat, k: string)
    requires Linked(lim, live, order, marks) && Ordered(marks, clock)
    requires k in live && Evict(live, order).0 == Without(live, k)
    ensures IsOldest(live, k)
  {
    VictimIsOldest(lim, live, order, marks, clock);
    var oldest :| IsOldest(live, oldest) && Evict(live, order).0 == Without(live, oldest);
    assert oldest !in Without(live, k).Keys;
  }

  lemma OldestIsLeastRecentlyUsed(lim: Limits, run: seq<Op>, live: Entries, k: string)
    requires var marks := Accepted(lim, run);
             forall j :: j in live ==> live[j].seqNo < |marks| && marks[live[j].seqNo].key == j
    requires k in live && forall j :: j in live && j != k ==> live[k].seqNo < live[j].seqNo
    requires live[k].seqNo < |MarkedBy(lim, run)|
             && forall n :: MarkedBy(lim, run)[live[k].seqNo] < n < |run| ==> !Uses(run[n], k)
    ensures LeastRecentlyUsed(live, run, k)
  {
    MarksByPosition(lim, run);
    var at := MarkedBy(lim, run);
    assert Uses(run[at[live[k].seqNo]], k);
    forall j | j in live && j != k ensures exists n :: at[live[k].seqNo] < n < |run| && Uses(run[n], j) {
      assert Uses(run[at[live[j].seqNo]], j);
    }
  }

  /**
    The victim of an eviction is also the least recently used entry if it has not been checked again since its
    mark.
  */
  lemma {:induction false} VictimUnusedSinceItsMark(lim: Limits, run: seq<Op>, live: Entries, k: string)
    requires Monotone(run)
    requires forall j :: j in live ==> j in After(lim, run).tracker && live[j] == After(lim, run).tracker[j]
    requires k in live && Evict(live, After(lim, run).order).0 == Without(live, k)
    requires live[k].seqNo < |MarkedBy(lim, run)|
             && forall n :: MarkedBy(lim, run)[live[k].seqNo] < n < |run| ==> !Uses(run[n], k)
    ensures LeastRecentlyUsed(live, run, k)
  {
    EveryRunKeepsInv(lim, run);
    var marks := Accepted(lim, run);
    assert Linked(lim, live, After(lim, run).order, marks);
    OnlyTheOldestGoes(lim, live, After(lim, run).order, marks, Clock(run), k);
    OldestIsLeastRecentlyUsed(lim, run, live, k);
  }

  /** The `i`-th of infinitely many distinct request ids. */
  function Name(i: nat): string {
    seq(i, _ => 'k')
  }

  /** The first `n` ids checked one after the other at instant 0. */
  function Checks(n: nat): seq<Op> {
    if n == 0 then [] else Checks(n - 1) + [Check(Name(n - 1), 0, 0)]
  }

  /** The index that `n` ids marked at instant 0 leave. */
  ghost predicate FilledTo(lim: Limits, ix: Index, n: nat) {
    && ix.next == |ix.order| == |ix.tracker| == n
    && (forall k :: k in ix.tracker ==> |k| < n && ix.tracker[k].expiresAt == lim.ttl)
    && forall i :: 0 <= i < n ==> ix.order[i] == Record(i, Name(i)) && IsCurrent(ix.tracker, Record(i, Name(i)))
  }

  lemma MarkBelowCapacity(lim: Limits, ix: Index, n: nat)
    requires FilledTo(lim, ix, n) && n < lim.maxEntries
    ensures FilledTo(lim, CheckedAndMarked(lim, ix, Name(n), 0, 0).0, n + 1)
  {
    assert Name(n) !in ix.tracker;
    var marked := CheckedAndMarked(lim, ix, Name(n), 0, 0).0;
    assert marked == Index(ix.tracker[Name(n) := Entry(lim.ttl, n)], ix.order + [Record(n, Name(n))], n + 1);
    assert marked.tracker.Keys == ix.tracker.Keys + {Name(n)};
    forall i | 0 <= i < n + 1 ensures IsCurrent(marked.tracker, Record(i, Name(i))) {
      assert i < n ==> IsCurrent(ix.tracker, Record(i, Name(i))) && |Name(i)| == i;
    }
  }

  lemma AfterOne(lim: Limits, run: seq<Op>, op: Op)
    ensures Front(run + [op]) == run && After(lim, run + [op]) == Step(lim, After(lim, run), op).0
  {
    assert Front(run + [op]) == run;
  }

  lemma {:induction false} ChecksMonotone(n: nat)
    ensures Monotone(Checks(n)) && Clock(Checks(n)) == 0 && |Checks(n)| == n
  {
    if n > 0 {
      ChecksMonotone(n - 1);
      assert Front(Checks(n)) == Checks(n - 1);
    }
  }

  lemma AfterChecks(lim: Limits, n: nat)
    requires n > 0
    ensures After(lim, Checks(n)) == CheckedAndMarked(lim, After(lim, Checks(n - 1)), Name(n - 1), 0, 0).0
  {
    AfterOne(lim, Checks(n - 1), Check(Name(n - 1), 0, 0));
  }

  /** Below capacity every one of them is marked. */
  lemma {:induction false} ChecksMark(lim: Limits, n: nat)
    requires n <= lim.maxEntries
    ensures FilledTo(lim, After(lim, Checks(n)), n)
  {
    if n > 0 {
      ChecksMark(lim, n - 1);
      AfterChecks(lim, n);
      MarkBelowCapacity(lim, After(lim, Checks(n - 1)), n - 1);
    }
  }

  /**
    After the run, the check `op` drops the unexpired entry of `k` to make room, although `k` is not the least
    recently used of the unexpired entries.
  */
  ghost predicate EvictsRecentlyUsed(lim: Limits, run: seq<Op>, op: Op, k: string) {
    && op.Check? && Monotone(run + [op])
    && var ix := After(lim, run);
       var live := Retained(Without(ix.tracker, op.key), op.later);
       k in live && k !in Step(lim, ix, op).0.tracker && !LeastRecentlyUsed(live, run, k)
  }

  /** The last of the run's operations that uses `key`. */
  lemma {:induction false} LastUse(run: seq<Op>, key: string, i: nat) returns (last: nat)
    requires i < |run| && Uses(run[i], key)
    ensures i <= last < |run| && Uses(run[last], key) && forall n :: last < n < |run| ==> !Uses(run[n], key)
    decreases |run| - i
  {
    if n: nat :| i < n < |run| && Uses(run[n], key) {
      last := LastUse(run, key, n);
    } else {
      last := i;
    }
  }

  lemma OnlyEntryIsLru(live: Entries, run: seq<Op>, k: string, i: nat)
    requires i < |run| && Uses(run[i], k) && forall j :: j in live ==> j == k
    ensures LeastRecentlyUsed(live, run, k)
  {
    var last := LastUse(run, k, i);
  }

  lemma {:induction false} EntryWasUsed(lim: Limits, run: seq<Op>, k: string) returns (i: nat)
    requires Monotone(run) && k in After(lim, run).tracker
    ensures i < |run| && Uses(run[i], k)
  {
    EveryRunKeepsInv(lim, run);
    var n := After(lim, run).tracker[k].seqNo;
    assert Accepted(lim, run)[n].key == k;
    MarksByPosition(lim, run);
    i := MarkedBy(lim, run)[n];
  }

  /** A map with room for one has nothing else to evict. */
  lemma {:induction false} SingleEntryIsLru(lim: Limits, run: seq<Op>, live: Entries, k: string)
    requires Monotone(run) && lim.maxEntries < 2 && live.Keys <= After(lim, run).tracker.Keys && k in live
    ensures LeastRecentlyUsed(live, run, k)
  {
    IndexConservation(lim, run);
    forall j | j in live ensures j == k {
      Subset({j, k}, After(lim, run).tracker.Keys);
    }
    var i := EntryWasUsed(lim, run, k);
    OnlyEntryIsLru(live, run, k, i);
  }

  /** Entries that live for no time have expired by the next operation. */
  lemma {:induction false} LiveEntryHasTtl(lim: Limits, run: seq<Op>, k: string, later: nat)
    requires Monotone(run) && Clock(run) <= later && IsDuplicate(After(lim, run).tracker, k, later)
    ensures lim.ttl > 0
  {
    EveryRunKeepsInv(lim, run);
    assert Accepted(lim, run)[After(lim, run).tracker[k].seqNo].time <= Clock(run);
  }

  lemma {:induction false} OnlyIfRoomForTwo(lim: Limits, run: seq<Op>, op: Op, k: string)
    requires EvictsRecentlyUsed(lim, run, op, k)
    ensures lim.maxEntries >= 2 && lim.ttl > 0
  {
    AfterOne(lim, run, op);
    LiveEntryHasTtl(lim, run, k, op.later);
    if lim.maxEntries < 2 {
      SingleEntryIsLru(lim, run, Retained(Without(After(lim, run).tracker, op.key), op.later), k);
    }
  }

  /** The id marked first is checked again last, and evicted for the next one all the same. */
  lemma {:induction false} FirstMarkedIsEvicted(lim: Limits)
    requires lim.maxEntries >= 2 && lim.ttl > 0
    ensures var m := lim.maxEntries;
            EvictsRecentlyUsed(lim, Checks(m) + [Check(Name(0), 0, 0)], Check(Name(m), 0, 0), Name(0))
  {
    var m := lim.maxEntries;
    ChecksMark(lim, m);
    ChecksMonotone(m);
    var run, op, ix := Checks(m) + [Check(Name(0), 0, 0)], Check(Name(m), 0, 0), After(lim, Checks(m));
    assert Front(run) == Checks(m) && Front(run + [op]) == run;
    assert IsCurrent(ix.tracker, Record(0, Name(0))) && IsCurrent(ix.tracker, Record(1, Name(1)));
    assert After(lim, run) == ix;
    assert |Name(0)| == 0 && |Name(1)| == 1 && |Name(m)| == m;
    assert Retained(Without(ix.tracker, Name(m)), 0) == ix.tracker;
    assert Uses(run[m], Name(0)) && !Uses(run[m], Name(1));
    assert !LeastRecentlyUsed(ix.tracker, run, Name(0));
  }

  /**
    Some run under a monotone clock evicts an unexpired entry that is not the least recently used one if and
    only if there is room for two and entries live at all.
  */
  lemma EvictionIsNotLru(lim: Limits)
    ensures (exists run, op, k :: EvictsRecentlyUsed(lim, run, op, k)) <==> lim.maxEntries >= 2 && lim.ttl > 0
  {
    if run, op, k :| EvictsRecentlyUsed(lim, run, op, k) {
      OnlyIfRoomForTwo(lim, run, op, k);
    } else if lim.maxEntries >= 2 && lim.ttl > 0 {
      FirstMarkedIsEvicted(lim);
      assert false;
    }
  }

  /** `n` periods of `ttl`. */
  function Ticks(ttl: nat, n: nat): nat {
    if n == 0 then 0 else Ticks(ttl, n - 1) + ttl
  }

  /** One key marked again and again, always when the previous mark has just expired. */
  function Remarks(lim: Limits, n: nat): seq<Op> {
    if n == 0 then [] else Remarks(lim, n - 1) + [Check("k", Ticks(lim.ttl, n), Ticks(lim.ttl, n))]
  }

  lemma RemarkExpired(lim: Limits, ix: Index, key: string, now: nat)
    requires lim.maxEntries >= 1 && Without(ix.tracker, key) == map[] && !IsDuplicate(ix.tracker, key, now)
    ensures CheckedAndMarked(lim, ix, key, now, now)
         == (Index(map[key := Entry(now + lim.ttl, ix.next)], ix.order + [Record(ix.next, key)], ix.next + 1), false, 0)
  {
  }

  /**
    The queue itself has no bound: below capacity nothing pops it, so one key re-marked `n` times leaves `n`
    records.
  */
  lemma {:induction false} QueueIsUnbounded(lim: Limits, n: nat)
    requires lim.maxEntries >= 1
    ensures Monotone(Remarks(lim, n)) && Clock(Remarks(lim, n)) == Ticks(lim.ttl, n)
    ensures var ix := After(lim, Remarks(lim, n));
            |ix.order| == n == ix.next && |ix.tracker| == Min(n, 1)
            && forall k :: k in ix.tracker ==> k == "k" && ix.tracker[k].expiresAt == Ticks(lim.ttl, n + 1)
  {
    if n > 0 {
      QueueIsUnbounded(lim, n - 1);
      var run, before := Remarks(lim, n), After(lim, Remarks(lim, n - 1));
      assert Front(run) == Remarks(lim, n - 1);
      assert Without(before.tracker, "k").Keys == {};
      RemarkExpired(lim, before, "k", Ticks(lim.ttl, n));
    }
  }
}
