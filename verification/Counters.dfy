/** The coarse process-wide counters: thread-local cells with deferred flush, global atomics,
    and the four-load snapshot. Counters are indexed in the order in which the source
    replaces, adds and loads them. */
module Counters {
  import opened Wrappers

  const ALLOCATED := 0
  const FREED := 1
  const ALLOCATIONS := 2
  const FREES := 3

  const STATS_FLUSH_EVENTS := 1024
  const STATS_FLUSH_BYTES := 1024 * 1024
  const U64_MAX := 0xFFFF_FFFF_FFFF_FFFF
  /** The largest layout size: `isize::MAX`. */
  const MAX_SIZE := 0x7FFF_FFFF_FFFF_FFFF

  /** The values of the four counters. */
  type Quad = q: seq<nat> | |q| == 4 witness [0, 0, 0, 0]
  const ZERO: Quad := [0, 0, 0, 0]

  datatype Traffic = Allocation(size: nat) | Free(size: nat)

  function Plus(a: Quad, b: Quad): Quad {
    [a[0] + b[0], a[1] + b[1], a[2] + b[2], a[3] + b[3]]
  }

  function QuadOf(a: nat, f: nat, n: nat, m: nat): Quad {
    [a, f, n, m]
  }

  /** What an event adds to the exact totals. */
  function Delta(t: Traffic): Quad {
    match t
    case Allocation(n) => [n, 0, 1, 0]
    case Free(n) => [0, n, 0, 1]
  }

  function SaturatingAdd(a: nat, b: nat): nat {
    if a + b <= U64_MAX then a + b else U64_MAX
  }

  /** The thread-local cells after an event, before any flush. */
  function AfterEvent(local: Quad, t: Traffic): Quad {
    match t
    case Allocation(n) =>
      local[ALLOCATED := SaturatingAdd(local[ALLOCATED], n)][ALLOCATIONS := SaturatingAdd(local[ALLOCATIONS], 1)]
    case Free(n) => local[FREED := SaturatingAdd(local[FREED], n)][FREES := SaturatingAdd(local[FREES], 1)]
  }

  predicate NeedsFlush(local: Quad) {
    SaturatingAdd(local[ALLOCATIONS], local[FREES]) >= STATS_FLUSH_EVENTS
    || SaturatingAdd(local[ALLOCATED], local[FREED]) >= STATS_FLUSH_BYTES
  }

  /** What a thread may hold back between calls: at most 1023 events, and less than 1 MiB. */
  predicate Lagging(local: Quad) {
    local[ALLOCATIONS] + local[FREES] <= STATS_FLUSH_EVENTS - 1
    && local[ALLOCATED] + local[FREED] < STATS_FLUSH_BYTES
  }

  /** From a lagging state no event of a representable size saturates, and the thread is
      still lagging exactly when no flush is due. */
  lemma {:induction false} EventIsExact(local: Quad, t: Traffic)
    requires Lagging(local) && t.size <= MAX_SIZE
    ensures AfterEvent(local, t) == Plus(local, Delta(t))
    ensures NeedsFlush(AfterEvent(local, t)) <==> !Lagging(AfterEvent(local, t))
  {
  }

  // ---------- the imperative form ----------

  class AtomicAllocations {
    var allocBytes: nat
    var freeBytes: nat
    var allocs: nat
    var frees: nat

    function View(): Quad
      reads this
    {
      QuadOf(allocBytes, freeBytes, allocs, frees)
    }

    constructor ()
      ensures View() == ZERO
    {
      allocBytes, freeBytes, allocs, frees := 0, 0, 0, 0;
    }

    method Snapshot() returns (q: Quad)
      ensures q == View()
    {
      q := QuadOf(allocBytes, freeBytes, allocs, frees);
    }
  }

  class LocalAllocationStats {
    var allocBytes: nat
    var freeBytes: nat
    var allocs: nat
    var frees: nat

    function View(): Quad
      reads this
    {
      QuadOf(allocBytes, freeBytes, allocs, frees)
    }

    ghost predicate Valid()
      reads this
    {
      Lagging(View())
    }

    constructor ()
      ensures Valid() && View() == ZERO
    {
      allocBytes, freeBytes, allocs, frees := 0, 0, 0, 0;
    }

    method Flush(global: AtomicAllocations)
      modifies this, global
      ensures View() == ZERO && global.View() == Plus(old(global.View()), old(View()))
      ensures allocBytes == 0 && global.allocBytes == old(global.allocBytes) + old(allocBytes)
      ensures freeBytes == 0 && global.freeBytes == old(global.freeBytes) + old(freeBytes)
      ensures allocs == 0 && global.allocs == old(global.allocs) + old(allocs)
      ensures frees == 0 && global.frees == old(global.frees) + old(frees)
    {
      var a, f, n, m := allocBytes, freeBytes, allocs, frees;
      allocBytes, freeBytes, allocs, frees := 0, 0, 0, 0;
      if a != 0 { global.allocBytes := global.allocBytes + a; }
      if f != 0 { global.freeBytes := global.freeBytes + f; }
      if n != 0 { global.allocs := global.allocs + n; }
      if m != 0 { global.frees := global.frees + m; }
    }

    /** A flush is due at 1024 events or at 1 MiB. */
    method FlushIfNeeded(global: AtomicAllocations)
      modifies this, global
      ensures NeedsFlush(old(View())) <==>
                old(allocs) + old(frees) >= 1024 || old(allocBytes) + old(freeBytes) >= 1048576
      ensures NeedsFlush(old(View())) ==>
        View() == ZERO && global.View() == Plus(old(global.View()), old(View()))
      ensures !NeedsFlush(old(View())) ==> View() == old(View()) && global.View() == old(global.View())
    {
      var events := SaturatingAdd(allocs, frees);
      var bytes := SaturatingAdd(allocBytes, freeBytes);
      if events >= STATS_FLUSH_EVENTS || bytes >= STATS_FLUSH_BYTES {
        Flush(global);
      }
    }

    /** No event is lost or counted twice, and the thread is lagging again afterwards. */
    method RecordAllocation(size: nat, global: AtomicAllocations)
      requires Valid() && size <= MAX_SIZE
      modifies this, global
      ensures Valid()
      ensures Plus(View(), global.View()) == Plus(Plus(old(View()), old(global.View())), Delta(Allocation(size)))
      ensures allocBytes + global.allocBytes == old(allocBytes) + old(global.allocBytes) + size
      ensures allocs + global.allocs == old(allocs) + old(global.allocs) + 1
      ensures freeBytes + global.freeBytes == old(freeBytes) + old(global.freeBytes)
      ensures frees + global.frees == old(frees) + old(global.frees)
      ensures if old(allocs) + old(frees) + 1 >= 1024 || old(allocBytes) + old(freeBytes) + size >= 1048576
              then allocBytes == 0 && freeBytes == 0 && allocs == 0 && frees == 0
              else allocBytes == old(allocBytes) + size && allocs == old(allocs) + 1
      ensures View() == if NeedsFlush(AfterEvent(old(View()), Allocation(size))) then ZERO
              else AfterEvent(old(View()), Allocation(size))
    {
      EventIsExact(View(), Allocation(size));
      allocBytes := SaturatingAdd(allocBytes, size);
      allocs := SaturatingAdd(allocs, 1);
      assert View() == AfterEvent(old(View()), Allocation(size));
      FlushIfNeeded(global);
    }

    method RecordDeallocation(size: nat, global: AtomicAllocations)
      requires Valid() && size <= MAX_SIZE
      modifies this, global
      ensures Valid()
      ensures Plus(View(), global.View()) == Plus(Plus(old(View()), old(global.View())), Delta(Free(size)))
      ensures freeBytes + global.freeBytes == old(freeBytes) + old(global.freeBytes) + size
      ensures frees + global.frees == old(frees) + old(global.frees) + 1
      ensures allocBytes + global.allocBytes == old(allocBytes) + old(global.allocBytes)
      ensures allocs + global.allocs == old(allocs) + old(global.allocs)
      ensures if old(allocs) + old(frees) + 1 >= 1024 || old(allocBytes) + old(freeBytes) + size >= 1048576
              then allocBytes == 0 && freeBytes == 0 && allocs == 0 && frees == 0
              else freeBytes == old(freeBytes) + size && frees == old(frees) + 1
      ensures View() == if NeedsFlush(AfterEvent(old(View()), Free(size))) then ZERO
              else AfterEvent(old(View()), Free(size))
    {
      EventIsExact(View(), Free(size));
      freeBytes := SaturatingAdd(freeBytes, size);
      frees := SaturatingAdd(frees, 1);
      assert View() == AfterEvent(old(View()), Free(size));
      FlushIfNeeded(global);
    }

    /** `allocation_stats` without other threads: the caller's own lag is never missing. */
    method AllocationStats(global: AtomicAllocations) returns (q: Quad)
      modifies this, global
      ensures q == Plus(old(global.View()), old(View())) && View() == ZERO && global.View() == q
    {
      Flush(global);
      q := global.Snapshot();
    }
  }

  // ---------- the concurrent form ----------

  /** `Flushing` at step `k` replaces cell `k` by zero for `k < 4` and adds the taken amount
      of counter `k - 4` to its atomic from then on; a thread whose cells are gone adds its
      event in the same way. `report` and `floor` remember what was visible to a running
      `allocation_stats` call when it began, `ceiling` the exact totals at each load. */
  datatype Pc =
    | Ready
    | Flushing(k: nat, taken: Quad, report: Option<Quad>)
    | Loading(floor: Quad, seen: seq<nat>, ceiling: seq<nat>)

  datatype Thread = Thread(local: Quad, dropped: bool, pc: Pc)
  const FRESH := Thread(ZERO, false, Ready)

  type ThreadId = nat
  datatype State = State(global: Quad, exact: Quad, threads: map<ThreadId, Thread>)
  const INITIAL := State(ZERO, ZERO, map[])

  function ThreadOf(s: State, i: ThreadId): Thread {
    if i in s.threads then s.threads[i] else FRESH
  }

  datatype Event = Record(traffic: Traffic) | FlushStep | Drop | BeginReport | Load | EndReport

  predicate Enabled(s: State, i: ThreadId, e: Event) {
    var pc := ThreadOf(s, i).pc;
    match e
    case Record(t) => pc.Ready? && t.size <= MAX_SIZE
    case FlushStep => pc.Flushing? && pc.k < 8
    case Drop => pc.Ready? && !ThreadOf(s, i).dropped
    case BeginReport => pc.Ready?
    case Load => pc.Loading? && |pc.seen| < 4
    case EndReport => pc.Loading? && |pc.seen| == 4
  }

  function FlushOne(s: State, i: ThreadId): State
    requires ThreadOf(s, i).pc.Flushing? && ThreadOf(s, i).pc.k < 8
  {
    var th := ThreadOf(s, i);
    var pc := th.pc;
    if pc.k < 4 then
      var th' := th.(local := th.local[pc.k := 0],
                     pc := Flushing(pc.k + 1, pc.taken[pc.k := th.local[pc.k]], pc.report));
      s.(threads := s.threads[i := th'])
    else
      var c := pc.k - 4;
      var next := if pc.k < 7 then Flushing(pc.k + 1, pc.taken[c := 0], pc.report)
                  else if pc.report.Some? then Loading(pc.report.value, [], []) else Ready;
      s.(global := s.global[c := s.global[c] + pc.taken[c]], threads := s.threads[i := th.(pc := next)])
  }

  function Apply(s: State, i: ThreadId, e: Event): State
    requires Enabled(s, i, e)
  {
    var th := ThreadOf(s, i);
    match e
    case Record(t) =>
      var th' := if th.dropped then th.(pc := Flushing(4, Delta(t), None))
                 else if NeedsFlush(AfterEvent(th.local, t))
                      then th.(local := AfterEvent(th.local, t), pc := Flushing(0, ZERO, None))
                 else th.(local := AfterEvent(th.local, t));
      State(s.global, Plus(s.exact, Delta(t)), s.threads[i := th'])
    case FlushStep => FlushOne(s, i)
    case Drop => s.(threads := s.threads[i := th.(dropped := true, pc := Flushing(0, ZERO, None))])
    case BeginReport =>
      var floor := Plus(s.global, th.local);
      s.(threads := s.threads[i := th.(pc := if th.dropped then Loading(floor, [], [])
                                       else Flushing(0, ZERO, Some(floor)))])
    case Load =>
      var c := |th.pc.seen|;
      s.(threads := s.threads[i := th.(pc := Loading(th.pc.floor, th.pc.seen + [s.global[c]],
                                                     th.pc.ceiling + [s.exact[c]]))])
    case EndReport => s.(threads := s.threads[i := th.(pc := Ready)])
  }

  datatype Step = Step(thread: ThreadId, event: Event)

  predicate Legal(s: State, steps: seq<Step>)
    decreases |steps|
  {
    steps == [] ||
    (Enabled(s, steps[0].thread, steps[0].event) && Legal(Apply(s, steps[0].thread, steps[0].event), steps[1..]))
  }

  function Exec(s: State, steps: seq<Step>): State
    requires Legal(s, steps)
    decreases |steps|
  {
    if steps == [] then s else Exec(Apply(s, steps[0].thread, steps[0].event), steps[1..])
  }
}
