/** Conservation, lag and snapshot bounds of the coarse counters over every interleaving. */
module CountersInvariant {
  import opened Wrappers
  import opened MapSums
  import opened Counters

  // ---------- conservation ----------

  /** What a thread has recorded of counter `c` and not yet added to its atomic. */
  function Unflushed(th: Thread, c: nat): nat
    requires c < 4
  {
    th.local[c] + if th.pc.Flushing? then th.pc.taken[c] else 0
  }

  ghost function Weight(c: nat): Thread -> int
    requires c < 4
  {
    (th: Thread) => Unflushed(th, c)
  }

  ghost predicate Conserved(s: State, c: nat)
    requires c < 4
  {
    s.global[c] + Sum(s.threads, Weight(c)) == s.exact[c]
  }

  lemma ThreadSum(s: State, i: ThreadId, th: Thread, c: nat)
    requires c < 4
    ensures Sum(s.threads[i := th], Weight(c))
            == Sum(s.threads, Weight(c)) - Unflushed(ThreadOf(s, i), c) + Unflushed(th, c)
  {
    SumUpdate(s.threads, Weight(c), i, th);
  }

  /** A step moves amounts between a thread and the atomics, and records traffic exactly. */
  lemma {:induction false} StepBalance(s: State, i: ThreadId, e: Event, c: nat)
    requires c < 4 && Enabled(s, i, e) && ThreadInv(s, ThreadOf(s, i))
    ensures var s' := Apply(s, i, e);
            s'.threads == s.threads[i := ThreadOf(s', i)]
            && s'.global[c] + Unflushed(ThreadOf(s', i), c) - s'.exact[c]
            == s.global[c] + Unflushed(ThreadOf(s, i), c) - s.exact[c]
  {
    var th := ThreadOf(s, i);
    match e
    case Record(t) => if !th.dropped { EventIsExact(th.local, t); }
    case FlushStep => FlushBalance(s, i, c);
    case _ =>
  }

  lemma {:induction false} FlushBalance(s: State, i: ThreadId, c: nat)
    requires c < 4 && Enabled(s, i, FlushStep) && ThreadInv(s, ThreadOf(s, i))
    ensures var s' := FlushOne(s, i);
            s'.threads == s.threads[i := ThreadOf(s', i)] && s'.exact == s.exact
            && s'.global[c] + Unflushed(ThreadOf(s', i), c) == s.global[c] + Unflushed(ThreadOf(s, i), c)
  {
  }

  lemma {:induction false} ConservedKept(s: State, i: ThreadId, e: Event, c: nat)
    requires c < 4 && Enabled(s, i, e) && Conserved(s, c) && ThreadInv(s, ThreadOf(s, i))
    ensures Conserved(Apply(s, i, e), c)
  {
    StepBalance(s, i, e, c);
    ThreadSum(s, i, ThreadOf(Apply(s, i, e), i), c);
  }

  // ---------- what holds of each thread ----------

  predicate Reached(floor: Quad, s: State, th: Thread) {
    forall c | 0 <= c < 4 :: floor[c] <= s.global[c] + Unflushed(th, c)
  }

  /** Every loaded value lies between what was visible to the call at its start and the exact
      total at that load, and neither the exact total nor the atomic has fallen below since. */
  predicate SnapshotOk(s: State, floor: Quad, seen: seq<nat>, ceiling: seq<nat>) {
    |seen| == |ceiling| <= 4 &&
    (forall c | 0 <= c < 4 :: floor[c] <= s.global[c]) &&
    (forall c | 0 <= c < |seen| :: floor[c] <= seen[c] <= ceiling[c] <= s.exact[c] && seen[c] <= s.global[c])
  }

  predicate ThreadInv(s: State, th: Thread) {
    && (th.dropped && !th.pc.Flushing? ==> th.local == ZERO)
    && match th.pc
       case Ready => Lagging(th.local)
       case Loading(floor, seen, ceiling) => Lagging(th.local) && SnapshotOk(s, floor, seen, ceiling)
       case Flushing(k, taken, report) =>
         && k < 8
         && (forall c | 0 <= c < 4 :: (c < k ==> th.local[c] == 0) && (c >= k || c < k - 4 ==> taken[c] == 0))
         && Unflushed(th, ALLOCATIONS) + Unflushed(th, FREES) <= STATS_FLUSH_EVENTS
         && Unflushed(th, ALLOCATED) + Unflushed(th, FREED) < STATS_FLUSH_BYTES + MAX_SIZE
         && (report.Some? ==> Reached(report.value, s, th))
  }

  ghost predicate Inv(s: State) {
    && (forall c | 0 <= c < 4 :: Conserved(s, c))
    && (forall i :: ThreadInv(s, ThreadOf(s, i)))
  }

  /** Globals and exact totals only grow. */
  lemma {:induction false} Monotone(s: State, i: ThreadId, e: Event)
    requires Enabled(s, i, e)
    ensures forall c | 0 <= c < 4 :: s.global[c] <= Apply(s, i, e).global[c] && s.exact[c] <= Apply(s, i, e).exact[c]
  {
  }

  lemma NotOverExact(s: State, c: nat)
    requires c < 4 && Conserved(s, c)
    ensures s.global[c] <= s.exact[c]
  {
    SumNonNegative(s.threads, Weight(c));
  }

  lemma {:induction false} FlushKeepsThread(s: State, i: ThreadId)
    requires Enabled(s, i, FlushStep) && ThreadInv(s, ThreadOf(s, i))
    ensures ThreadInv(Apply(s, i, FlushStep), ThreadOf(Apply(s, i, FlushStep), i))
  {
    var s' := Apply(s, i, FlushStep);
    var th, th' := ThreadOf(s, i), ThreadOf(s', i);
    forall c | 0 <= c < 4
      ensures s'.global[c] + Unflushed(th', c) == s.global[c] + Unflushed(th, c)
    {
    }
    if th.pc.k == 7 {
      assert th'.local == ZERO;
    }
  }

  lemma {:induction false} RecordKeepsThread(s: State, i: ThreadId, t: Event)
    requires t.Record? && Enabled(s, i, t) && ThreadInv(s, ThreadOf(s, i))
    ensures ThreadInv(Apply(s, i, t), ThreadOf(Apply(s, i, t), i))
  {
    var th := ThreadOf(s, i);
    if !th.dropped { EventIsExact(th.local, t.traffic); }
  }

  lemma {:induction false} LoadKeepsThread(s: State, i: ThreadId)
    requires Inv(s) && Enabled(s, i, Load)
    ensures ThreadInv(Apply(s, i, Load), ThreadOf(Apply(s, i, Load), i))
  {
    var th := ThreadOf(s, i);
    assert ThreadInv(s, th);
    NotOverExact(s, |th.pc.seen|);
  }

  lemma {:induction false} OwnThreadKept(s: State, i: ThreadId, e: Event)
    requires Inv(s) && Enabled(s, i, e)
    ensures ThreadInv(Apply(s, i, e), ThreadOf(Apply(s, i, e), i))
  {
    var th := ThreadOf(s, i);
    assert ThreadInv(s, th);
    match e
    case FlushStep => FlushKeepsThread(s, i);
    case Record(_) => RecordKeepsThread(s, i, e);
    case Load => LoadKeepsThread(s, i);
    case _ =>
  }

  lemma {:induction false} InvKept(s: State, i: ThreadId, e: Event)
    requires Inv(s) && Enabled(s, i, e)
    ensures Inv(Apply(s, i, e))
  {
    var s' := Apply(s, i, e);
    Monotone(s, i, e);
    assert ThreadInv(s, ThreadOf(s, i));
    forall c | 0 <= c < 4 ensures Conserved(s', c) { ConservedKept(s, i, e, c); }
    OwnThreadKept(s, i, e);
    forall j | j != i ensures ThreadInv(s', ThreadOf(s', j)) {
      assert ThreadOf(s', j) == ThreadOf(s, j) && ThreadInv(s, ThreadOf(s, j));
    }
  }

  lemma {:induction false} InvOverRun(s: State, steps: seq<Step>)
    requires Inv(s) && Legal(s, steps)
    ensures Inv(Exec(s, steps))
    decreases |steps|
  {
    if steps != [] {
      InvKept(s, steps[0].thread, steps[0].event);
      InvOverRun(Apply(s, steps[0].thread, steps[0].event), steps[1..]);
    }
  }

  lemma {:induction false} InvReachable(steps: seq<Step>)
    requires Legal(INITIAL, steps)
    ensures Inv(Exec(INITIAL, steps))
  {
    InvOverRun(INITIAL, steps);
  }

  // ---------- main results ----------

  /** The traffic of a run, added up counter by counter. */
  function Traffic(steps: seq<Step>): Quad {
    if steps == [] then ZERO
    else Plus(if steps[0].event.Record? then Delta(steps[0].event.traffic) else ZERO, Traffic(steps[1..]))
  }

  /** The sizes of the blocks allocated or freed in a run, and their number. */
  function Sizes(steps: seq<Step>, freed: bool): nat {
    if steps == [] then 0
    else
      (match steps[0].event
       case Record(Allocation(n)) => if freed then 0 else n
       case Record(Free(n)) => if freed then n else 0
       case _ => 0) + Sizes(steps[1..], freed)
  }

  function Events(steps: seq<Step>, freed: bool): nat {
    if steps == [] then 0
    else (if steps[0].event.Record? && steps[0].event.traffic.Free? == freed then 1 else 0) + Events(steps[1..], freed)
  }

  /** The four totals of a run, in the order of the counters: bytes allocated, bytes freed,
      allocations, frees. */
  lemma {:induction false} TrafficMeans(steps: seq<Step>)
    ensures Traffic(steps) == [Sizes(steps, false), Sizes(steps, true), Events(steps, false), Events(steps, true)]
  {
    if steps != [] {
      TrafficMeans(steps[1..]);
    }
  }

  lemma {:induction false} ExactIsTraffic(s: State, steps: seq<Step>)
    requires Legal(s, steps)
    ensures Exec(s, steps).exact == Plus(s.exact, Traffic(steps))
    decreases |steps|
  {
    if steps != [] {
      var s' := Apply(s, steps[0].thread, steps[0].event);
      ExactIsTraffic(s', steps[1..]);
      assert s'.exact == Plus(s.exact, if steps[0].event.Record? then Delta(steps[0].event.traffic) else ZERO);
    }
  }

  /** In every reachable state, atomics plus everything the threads hold back or are adding
      make up exactly the traffic recorded so far. */
  lemma {:induction false} CountersConserved(steps: seq<Step>, c: nat)
    requires Legal(INITIAL, steps) && c < 4
    ensures var s := Exec(INITIAL, steps);
            s.global[c] + Sum(s.threads, Weight(c)) == Traffic(steps)[c]
  {
    InvReachable(steps);
    ExactIsTraffic(INITIAL, steps);
    assert Conserved(Exec(INITIAL, steps), c);
  }

  /** Once every thread has been dropped and is not in a call, the atomics are exact. */
  lemma {:induction false} ExactAfterDrop(steps: seq<Step>)
    requires Legal(INITIAL, steps)
    requires forall i :: i in Exec(INITIAL, steps).threads ==>
               Exec(INITIAL, steps).threads[i].dropped && Exec(INITIAL, steps).threads[i].pc.Ready?
    ensures Exec(INITIAL, steps).global == Traffic(steps)
  {
    var s := Exec(INITIAL, steps);
    InvReachable(steps);
    forall c | 0 <= c < 4 ensures s.global[c] == Traffic(steps)[c] {
      CountersConserved(steps, c);
      forall i | i in s.threads ensures Weight(c)(s.threads[i]) == 0 {
        assert ThreadInv(s, ThreadOf(s, i)) && ThreadOf(s, i) == s.threads[i];
      }
      SumAtMost(s.threads, Weight(c), 0);
      SumNonNegative(s.threads, Weight(c));
    }
  }

  /** What the other threads have recorded of counter `c` that the atomics do not show. */
  ghost function OthersLag(s: State, i: ThreadId, c: nat): int
    requires c < 4
  {
    Sum(s.threads - {i}, Weight(c))
  }

  lemma OwnAndOthers(s: State, i: ThreadId, c: nat)
    requires c < 4
    ensures Sum(s.threads, Weight(c)) == OthersLag(s, i, c) + Unflushed(ThreadOf(s, i), c)
  {
    if i in s.threads {
      SumRemove(s.threads, Weight(c), i);
    } else {
      assert s.threads - {i} == s.threads;
    }
  }

  /** A run in which thread `i` does not leave its `allocation_stats` call. */
  predicate StaysInReport(steps: seq<Step>, i: ThreadId) {
    forall k | 0 <= k < |steps| :: !(steps[k].thread == i && steps[k].event.EndReport?)
  }

  /** The thread is inside an `allocation_stats` call that began with `floor` visible. */
  predicate Reporting(s: State, i: ThreadId, floor: Quad) {
    var pc := ThreadOf(s, i).pc;
    (pc.Flushing? && pc.k < 8 && pc.report == Some(floor)) || (pc.Loading? && pc.floor == floor)
  }

  lemma {:induction false} FloorKept(s: State, steps: seq<Step>, i: ThreadId, floor: Quad)
    requires Legal(s, steps) && StaysInReport(steps, i) && Reporting(s, i, floor)
    ensures Reporting(Exec(s, steps), i, floor)
    decreases |steps|
  {
    if steps != [] {
      var s' := Apply(s, steps[0].thread, steps[0].event);
      assert !(steps[0].thread == i && steps[0].event.EndReport?);
      assert Reporting(s', i, floor);
      assert forall k | 0 <= k < |steps[1..]| :: steps[1..][k] == steps[k + 1];
      FloorKept(s', steps[1..], i, floor);
    }
  }

  /** A torn snapshot, over any interleaving during the call: each of its four values is at
      least the exact total when the call began less what the other threads held back then,
      and at most the exact total when it was loaded and what the atomics show at the end. */
  lemma {:induction false} TornSnapshot(before: seq<Step>, i: ThreadId, during: seq<Step>, c: nat)
    requires Legal(INITIAL, before) && Enabled(Exec(INITIAL, before), i, BeginReport)
    requires Legal(Apply(Exec(INITIAL, before), i, BeginReport), during) && StaysInReport(during, i)
    requires c < 4
    ensures var start, end := Exec(INITIAL, before), Exec(Apply(Exec(INITIAL, before), i, BeginReport), during);
            var pc := ThreadOf(end, i).pc;
            pc.Loading? && |pc.seen| == 4 ==>
              && |pc.ceiling| == 4
              && start.exact[c] - OthersLag(start, i, c) <= pc.seen[c] <= pc.ceiling[c] <= end.exact[c]
              && pc.seen[c] <= end.global[c]
  {
    var start := Exec(INITIAL, before);
    var begun := Apply(start, i, BeginReport);
    var end := Exec(begun, during);
    var floor := Plus(start.global, ThreadOf(start, i).local);
    InvReachable(before);
    assert ThreadInv(start, ThreadOf(start, i)) && Conserved(start, c);
    OwnAndOthers(start, i, c);
    assert floor[c] == start.exact[c] - OthersLag(start, i, c);
    assert Reporting(begun, i, floor);
    FloorKept(begun, during, i, floor);
    InvKept(start, i, BeginReport);
    InvOverRun(begun, during);
    assert ThreadInv(end, ThreadOf(end, i));
  }

  ghost function EventsWeight(): Thread -> int {
    (th: Thread) => Unflushed(th, ALLOCATIONS) + Unflushed(th, FREES)
  }

  ghost function BytesWeight(): Thread -> int {
    (th: Thread) => Unflushed(th, ALLOCATED) + Unflushed(th, FREED)
  }

  lemma {:induction false} SumSplits<K>(m: map<K, Thread>, w: Thread -> int, a: Thread -> int, b: Thread -> int)
    requires forall k :: k in m ==> w(m[k]) == a(m[k]) + b(m[k])
    ensures Sum(m, w) == Sum(m, a) + Sum(m, b)
    decreases |m|
  {
    if m != map[] {
      var k :| k in m;
      SumRemove(m, w, k);
      SumRemove(m, a, k);
      SumRemove(m, b, k);
      SumSplits(m - {k}, w, a, b);
    }
  }

  /** The documented lag: while `n` other threads are between calls, what they hold back is
      at most 1023 events each and less than 1 MiB each. */
  lemma {:induction false} IdleThreadsLag(steps: seq<Step>, i: ThreadId)
    requires Legal(INITIAL, steps)
    requires forall j :: j in Exec(INITIAL, steps).threads && j != i ==> Exec(INITIAL, steps).threads[j].pc.Ready?
    ensures var s := Exec(INITIAL, steps);
            var n := |s.threads - {i}|;
            && OthersLag(s, i, ALLOCATIONS) + OthersLag(s, i, FREES) <= 1023 * n
            && OthersLag(s, i, ALLOCATED) + OthersLag(s, i, FREED) <= 1048575 * n
  {
    var s := Exec(INITIAL, steps);
    var others := s.threads - {i};
    InvReachable(steps);
    forall j | j in others ensures Lagging(others[j].local) && others[j].pc.Ready? {
      assert ThreadInv(s, ThreadOf(s, j)) && ThreadOf(s, j) == others[j];
    }
    SumAtMost(others, EventsWeight(), STATS_FLUSH_EVENTS - 1);
    SumAtMost(others, BytesWeight(), STATS_FLUSH_BYTES - 1);
    SumSplits(others, EventsWeight(), Weight(ALLOCATIONS), Weight(FREES));
    SumSplits(others, BytesWeight(), Weight(ALLOCATED), Weight(FREED));
  }

  // ---------- a thread in the middle of a flush ----------

  lemma {:induction false} RecordUpTo(s: State, m: nat) returns (steps: seq<Step>)
    requires m < STATS_FLUSH_EVENTS && ThreadOf(s, 0) == Thread([0, 0, m, 0], false, Ready)
    ensures Legal(s, steps)
    ensures ThreadOf(Exec(s, steps), 0) == Thread([0, 0, STATS_FLUSH_EVENTS, 0], false, Flushing(0, ZERO, None))
    decreases STATS_FLUSH_EVENTS - m
  {
    var first := Step(0, Record(Allocation(0)));
    var s' := Apply(s, 0, first.event);
    assert AfterEvent([0, 0, m, 0], Allocation(0)) == [0, 0, m + 1, 0];
    if m + 1 == STATS_FLUSH_EVENTS {
      steps := [first];
    } else {
      var rest := RecordUpTo(s', m + 1);
      steps := [first] + rest;
      assert steps[1..] == rest;
    }
  }

  /** The bound of `IdleThreadsLag` is for threads between calls: one that has begun to flush
      can hold back all 1024 events, the one that triggered the flush included. */
  lemma MidFlushLag() returns (steps: seq<Step>)
    ensures Legal(INITIAL, steps)
    ensures var th := ThreadOf(Exec(INITIAL, steps), 0);
            th.pc.Flushing? && Unflushed(th, ALLOCATIONS) + Unflushed(th, FREES) == 1024
  {
    steps := RecordUpTo(INITIAL, 0);
  }
}
