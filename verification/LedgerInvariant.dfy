/** What every step of the allocation ledger keeps, and what follows over whole runs. */
module LedgerInvariant {
  import opened Wrappers
  import opened MapSums
  import opened Ledger

  // ---------- ownership ----------

  /** The live block a call holds, with the layout size the call works with. */
  function Held(pc: Pc): Option<(Addr, nat)> {
    match pc
    case Obtained(p, n, _) => Some((p, n))
    case RecordInsert(p, n, _) => Some((p, n))
    case RecordTotals(p, n, _) => Some((p, n))
    case FreeTake(p, n) => Some((p, n))
    case FreeRelease(p, n, _) => Some((p, n))
    case ReallocTake(p, n, _) => Some((p, n))
    case ReallocBackend(p, n, _, _) => Some((p, n))
    case ReallocFinish(p, n, _, _) => Some((p, n))
    case ReallocRestore(p, n, _) => Some((p, n))
    case _ => None
  }

  predicate Holds(s: State, i: ThreadId, p: Addr) {
    Held(PcOf(s, i)).Some? && Held(PcOf(s, i)).value.0 == p
  }

  /** Each live block belongs to the client or to at most one call, and calls know its size. */
  ghost predicate Ownership(s: State) {
    && s.client <= s.heap.Keys
    && (forall i, p :: Holds(s, i, p) ==>
          p in s.heap && p !in s.client && s.heap[p] == Held(PcOf(s, i)).value.1)
    && (forall i, j, p :: Holds(s, i, p) && Holds(s, j, p) ==> i == j)
  }

  /** What the stepping thread holds afterwards it held before, or has just obtained. */
  lemma OwnStep(s: State, i: ThreadId, e: Event, exact: bool, p: Addr)
    requires Ownership(s) && Enabled(s, i, e, exact) && Holds(Apply(s, i, e, exact), i, p)
    ensures var s' := Apply(s, i, e, exact);
            && p in s'.heap && p !in s'.client && s'.heap[p] == Held(PcOf(s', i)).value.1
            && (Holds(s, i, p) || p !in s.heap || p in s.client)
  {
    var pc := PcOf(s, i);
    if Held(pc).Some? { assert Holds(s, i, Held(pc).value.0); }
  }

  /** What another thread holds is left alone. */
  lemma OtherStep(s: State, i: ThreadId, e: Event, exact: bool, j: ThreadId, p: Addr)
    requires Ownership(s) && Enabled(s, i, e, exact) && j != i && Holds(s, j, p)
    ensures var s' := Apply(s, i, e, exact);
            p in s'.heap && p !in s'.client && s'.heap[p] == s.heap[p] && PcOf(s', j) == PcOf(s, j)
  {
    var pc := PcOf(s, i);
    if Held(pc).Some? { assert Holds(s, i, Held(pc).value.0); }
  }

  lemma ClientStep(s: State, i: ThreadId, e: Event, exact: bool)
    requires Ownership(s) && Enabled(s, i, e, exact)
    ensures Apply(s, i, e, exact).client <= Apply(s, i, e, exact).heap.Keys
  {
    var pc := PcOf(s, i);
    if Held(pc).Some? { assert Holds(s, i, Held(pc).value.0); }
  }

  lemma OwnershipKept(s: State, i: ThreadId, e: Event, exact: bool)
    requires Ownership(s) && Enabled(s, i, e, exact)
    ensures Ownership(Apply(s, i, e, exact))
  {
    var s' := Apply(s, i, e, exact);
    ClientStep(s, i, e, exact);
    forall j | j != i ensures PcOf(s', j) == PcOf(s, j) {}
    forall j, p | Holds(s', j, p)
      ensures p in s'.heap && p !in s'.client && s'.heap[p] == Held(PcOf(s', j)).value.1
      ensures j == i || Holds(s, j, p)
    {
      if j == i { OwnStep(s, i, e, exact, p); } else { OtherStep(s, i, e, exact, j, p); }
    }
    forall j, p | j != i && Holds(s', j, p) ensures !Holds(s', i, p) {
      assert Holds(s, j, p);
      if Holds(s', i, p) { OwnStep(s, i, e, exact, p); }
    }
  }

  // ---------- records ----------

  /** Between inserting its record and adding its totals, a call's record stays in place. */
  ghost predicate PendingInPlace(s: State) {
    forall i :: PcOf(s, i).RecordTotals? ==>
      var pc := PcOf(s, i);
      pc.ptr in s.pointers && s.pointers[pc.ptr] == Record(pc.size, pc.trace)
  }

  /** The call holds a block that must have no record. */
  predicate Unrecorded(pc: Pc) {
    pc.Obtained? || pc.RecordInsert? || pc.FreeRelease? || pc.ReallocBackend? || pc.ReallocFinish? || pc.ReallocRestore?
  }

  /** The record a call has taken out of the pointer map, with the layout size it freed. */
  function Taken(pc: Pc): Option<(Record, nat)> {
    match pc
    case FreeRelease(_, n, Some(r)) => Some((r, n))
    case FreeFinish(n, Some(r)) => Some((r, n))
    case ReallocBackend(_, n, _, Some(r)) => Some((r, n))
    case ReallocFinish(_, _, n, Some(r)) => Some((r, n))
    case ReallocRestore(_, n, Some(r)) => Some((r, n))
    case _ => None
  }

  /** Records describe live blocks at their current layout size. */
  ghost predicate RecordsLive(s: State) {
    forall p :: p in s.pointers ==> p in s.heap && s.pointers[p].size == s.heap[p]
  }

  /** A call that took the record of its block still finds none there: `restore` never collides. */
  ghost predicate RoomToRestore(s: State) {
    forall i :: TookRecord(PcOf(s, i)) ==> PcOf(s, i).ptr !in s.pointers
  }

  predicate TookRecord(pc: Pc) {
    pc.FreeRelease? || pc.ReallocBackend? || pc.ReallocRestore?
  }

  /** No insertion ever meets an existing record. */
  ghost predicate RoomToInsert(s: State) {
    forall i :: Unrecorded(PcOf(s, i)) ==> PcOf(s, i).ptr !in s.pointers
  }

  /** A taken record has the layout size of the block it was taken for. */
  ghost predicate TakenSizes(s: State) {
    forall i :: TakenAtLayoutSize(PcOf(s, i))
  }

  predicate TakenAtLayoutSize(pc: Pc) {
    Taken(pc).Some? ==> Taken(pc).value.0.size == Taken(pc).value.1
  }

  ghost predicate Exact(s: State) {
    RecordsLive(s) && RoomToInsert(s) && TakenSizes(s)
  }

  lemma PendingKept(s: State, i: ThreadId, e: Event, exact: bool)
    requires Ownership(s) && PendingInPlace(s) && Enabled(s, i, e, exact)
    ensures PendingInPlace(Apply(s, i, e, exact))
  {
    var s' := Apply(s, i, e, exact);
    forall j | PcOf(s', j).RecordTotals?
      ensures PcOf(s', j).ptr in s'.pointers
      ensures s'.pointers[PcOf(s', j).ptr] == Record(PcOf(s', j).size, PcOf(s', j).trace)
    {
      if j != i {
        var p := PcOf(s, j).ptr;
        assert Holds(s, j, p);
        if Held(PcOf(s, i)).Some? { assert Holds(s, i, Held(PcOf(s, i)).value.0); }
      }
    }
  }

  lemma RoomToRestoreKept(s: State, i: ThreadId, e: Event, exact: bool)
    requires Ownership(s) && RoomToRestore(s) && Enabled(s, i, e, exact)
    ensures RoomToRestore(Apply(s, i, e, exact))
  {
    var s' := Apply(s, i, e, exact);
    var pc := PcOf(s, i);
    forall j | TookRecord(PcOf(s', j)) ensures PcOf(s', j).ptr !in s'.pointers {
      if j != i {
        assert PcOf(s', j) == PcOf(s, j) && Holds(s, j, PcOf(s, j).ptr);
        if Held(pc).Some? { assert Holds(s, i, Held(pc).value.0); }
      }
    }
  }

  lemma RecordsLiveKept(s: State, i: ThreadId, e: Event)
    requires Ownership(s) && Exact(s) && Enabled(s, i, e, true)
    ensures RecordsLive(Apply(s, i, e, true))
  {
    var pc := PcOf(s, i);
    assert TakenAtLayoutSize(pc);
    if Held(pc).Some? { assert Holds(s, i, Held(pc).value.0); }
  }

  lemma RoomToInsertKept(s: State, i: ThreadId, e: Event)
    requires Ownership(s) && Exact(s) && Enabled(s, i, e, true)
    ensures RoomToInsert(Apply(s, i, e, true))
  {
    var s' := Apply(s, i, e, true);
    var pc := PcOf(s, i);
    forall j | Unrecorded(PcOf(s', j)) ensures PcOf(s', j).ptr !in s'.pointers {
      if j != i {
        assert PcOf(s', j) == PcOf(s, j) && Holds(s, j, PcOf(s, j).ptr);
        if Held(pc).Some? { assert Holds(s, i, Held(pc).value.0); }
      }
    }
  }

  lemma TakenSizesKept(s: State, i: ThreadId, e: Event)
    requires Ownership(s) && Exact(s) && Enabled(s, i, e, true)
    ensures TakenSizes(Apply(s, i, e, true))
  {
    var s' := Apply(s, i, e, true);
    var pc := PcOf(s, i);
    assert TakenAtLayoutSize(pc);
    if Held(pc).Some? { assert Holds(s, i, Held(pc).value.0); }
    assert TakenAtLayoutSize(PcOf(s', i));
    forall j | j != i ensures TakenAtLayoutSize(PcOf(s', j)) { assert TakenAtLayoutSize(PcOf(s, j)); }
  }

  // ---------- accounting ----------

  ghost function Pending(threads: map<ThreadId, Pc>): set<Addr> {
    set i | i in threads && threads[i].RecordTotals? :: threads[i].ptr
  }

  /** The records whose allocation has been added to their trace. */
  ghost function Settled(s: State): map<Addr, Record> {
    s.pointers - Pending(s.threads)
  }

  /** What a record counts for under a trace. */
  function Share(r: Record, t: Trace, m: Metric): nat {
    if r.trace != t then 0 else if m.Bytes? then r.size else 1
  }

  function TakenShare(pc: Pc, t: Trace, m: Metric): nat {
    if Taken(pc).Some? then Share(Taken(pc).value.0, t, m) else 0
  }

  ghost function RecordWeight(t: Trace, m: Metric): Record -> int {
    (r: Record) => Share(r, t, m)
  }

  ghost function TakenWeight(t: Trace, m: Metric): Pc -> int {
    (pc: Pc) => TakenShare(pc, t, m)
  }

  /** What a trace shows as still in use: allocated minus freed, before saturation. */
  function Gap(s: State, t: Trace, m: Metric): int {
    var totals := TotalsOf(s.traces, t);
    if m.Bytes? then totals.allocBytes - totals.freeBytes else totals.allocs - totals.frees
  }

  /** What the pointer map and the calls in flight account for under a trace. */
  ghost function Accounted(s: State, t: Trace, m: Metric): int {
    Sum(Settled(s), RecordWeight(t, m)) + Sum(s.threads, TakenWeight(t, m))
  }

  /** What a step destroys: the record that an insertion finds at its address. */
  function LostBy(s: State, i: ThreadId, e: Event, t: Trace, m: Metric): nat {
    var pc := PcOf(s, i);
    if e.Insert? && pc.RecordInsert? && pc.ptr in s.pointers then Share(s.pointers[pc.ptr], t, m) else 0
  }

  ghost predicate Balanced(s: State, t: Trace, m: Metric, lost: nat) {
    Gap(s, t, m) == Accounted(s, t, m) + lost
  }

  lemma PendingAfter(s: State, i: ThreadId, pc: Pc)
    requires Ownership(s)
    ensures var now := Pending(s.threads[i := pc]);
            var before := Pending(s.threads);
            && (!pc.RecordTotals? && !PcOf(s, i).RecordTotals? ==> now == before)
            && (pc.RecordTotals? && !PcOf(s, i).RecordTotals? ==> now == before + {pc.ptr})
            && (!pc.RecordTotals? && PcOf(s, i).RecordTotals? ==> now == before - {PcOf(s, i).ptr})
  {
    var threads' := s.threads[i := pc];
    forall j | j in s.threads && j != i ensures threads'[j] == s.threads[j] {}
    assert i in threads' && threads'[i] == pc;
    forall p | p in Pending(s.threads) && !(PcOf(s, i).RecordTotals? && PcOf(s, i).ptr == p)
      ensures p in Pending(threads')
    {
      var j :| j in s.threads && s.threads[j].RecordTotals? && s.threads[j].ptr == p;
      assert j in threads' && threads'[j] == s.threads[j];
    }
    forall p | p in Pending(threads') && PcOf(s, i).RecordTotals? && !pc.RecordTotals? ensures p != PcOf(s, i).ptr {
      var j :| j in threads' && threads'[j].RecordTotals? && threads'[j].ptr == p;
      assert Holds(s, j, p);
      assert Holds(s, i, PcOf(s, i).ptr);
    }
  }

  /** A block held by a call that is not adding totals has no pending record. */
  lemma HeldNotPending(s: State, i: ThreadId, p: Addr)
    requires Ownership(s) && Holds(s, i, p) && !PcOf(s, i).RecordTotals?
    ensures p !in Pending(s.threads)
  {
    if p in Pending(s.threads) {
      var j :| j in s.threads && s.threads[j].RecordTotals? && s.threads[j].ptr == p;
      assert Holds(s, j, p);
    }
  }

  lemma ThreadsSum(s: State, i: ThreadId, pc: Pc, t: Trace, m: Metric)
    ensures Sum(s.threads[i := pc], TakenWeight(t, m))
         == Sum(s.threads, TakenWeight(t, m)) - TakenShare(PcOf(s, i), t, m) + TakenShare(pc, t, m)
  {
    SumUpdate(s.threads, TakenWeight(t, m), i, pc);
  }

  /** Steps that change neither map of the profile. */
  predicate LeavesMaps(e: Event) {
    !e.Insert? && !e.AddTotals? && !e.Take? && !e.Finish? && !e.Restore?
  }

  lemma QuietStep(s: State, i: ThreadId, e: Event, t: Trace, m: Metric, exact: bool)
    requires Enabled(s, i, e, exact) && LeavesMaps(e)
    ensures var s' := Apply(s, i, e, exact);
            && s'.pointers == s.pointers && s'.traces == s.traces
            && (s'.threads == s.threads ||
                (s'.threads == s.threads[i := PcOf(s', i)]
                 && !PcOf(s, i).RecordTotals? && !PcOf(s', i).RecordTotals?
                 && TakenShare(PcOf(s', i), t, m) == TakenShare(PcOf(s, i), t, m)))
  {
  }

  lemma BalancedKeptQuiet(s: State, i: ThreadId, e: Event, t: Trace, m: Metric, exact: bool, lost: nat)
    requires Ownership(s) && Enabled(s, i, e, exact) && LeavesMaps(e)
    requires Balanced(s, t, m, lost)
    ensures Balanced(Apply(s, i, e, exact), t, m, lost)
  {
    var s' := Apply(s, i, e, exact);
    QuietStep(s, i, e, t, m, exact);
    if s'.threads != s.threads {
      PendingAfter(s, i, PcOf(s', i));
      ThreadsSum(s, i, PcOf(s', i), t, m);
    }
    assert Settled(s') == Settled(s);
  }

  lemma BalancedKeptInsert(s: State, i: ThreadId, t: Trace, m: Metric, exact: bool, lost: nat)
    requires Ownership(s) && Enabled(s, i, Insert, exact)
    requires Balanced(s, t, m, lost)
    ensures Balanced(Apply(s, i, Insert, exact), t, m, lost + LostBy(s, i, Insert, t, m))
  {
    var s' := Apply(s, i, Insert, exact);
    var pc := PcOf(s, i);
    HeldNotPending(s, i, pc.ptr);
    PendingAfter(s, i, PcOf(s', i));
    ThreadsSum(s, i, PcOf(s', i), t, m);
    assert Settled(s') == Settled(s) - {pc.ptr};
    if pc.ptr in s.pointers {
      SumRemove(Settled(s), RecordWeight(t, m), pc.ptr);
    } else {
      assert Settled(s') == Settled(s);
    }
  }

  lemma GapAfterAllocation(s: State, r: Record, t: Trace, m: Metric)
    ensures Gap(s.(traces := AddAllocation(s.traces, r)), t, m) == Gap(s, t, m) + Share(r, t, m)
  {
  }

  lemma GapAfterFree(s: State, rec: Option<Record>, t: Trace, m: Metric)
    ensures Gap(s.(traces := AddFree(s.traces, rec)), t, m)
         == Gap(s, t, m) - (if rec.Some? then Share(rec.value, t, m) else 0)
  {
  }

  lemma BalancedKeptAddTotals(s: State, i: ThreadId, t: Trace, m: Metric, exact: bool, lost: nat)
    requires Ownership(s) && PendingInPlace(s) && Enabled(s, i, AddTotals, exact)
    requires Balanced(s, t, m, lost)
    ensures Balanced(Apply(s, i, AddTotals, exact), t, m, lost)
  {
    var s' := Apply(s, i, AddTotals, exact);
    var pc := PcOf(s, i);
    var r := Record(pc.size, pc.trace);
    GapAfterAllocation(s, r, t, m);
    PendingAfter(s, i, Idle);
    ThreadsSum(s, i, Idle, t, m);
    assert pc.ptr in Pending(s.threads);
    assert Settled(s') == Settled(s)[pc.ptr := r];
    SumUpdate(Settled(s), RecordWeight(t, m), pc.ptr, r);
  }

  lemma TakeStep(s: State, i: ThreadId, t: Trace, m: Metric, exact: bool)
    requires Enabled(s, i, Take, exact)
    ensures var s' := Apply(s, i, Take, exact);
            var p := PcOf(s, i).ptr;
            && s'.pointers == s.pointers - {p} && s'.traces == s.traces
            && s'.threads == s.threads[i := PcOf(s', i)]
            && !PcOf(s', i).RecordTotals? && TakenShare(PcOf(s, i), t, m) == 0
            && TakenShare(PcOf(s', i), t, m) == if p in s.pointers then Share(s.pointers[p], t, m) else 0
  {
  }

  lemma BalancedKeptTake(s: State, i: ThreadId, t: Trace, m: Metric, exact: bool, lost: nat)
    requires Ownership(s) && Enabled(s, i, Take, exact)
    requires Balanced(s, t, m, lost)
    ensures Balanced(Apply(s, i, Take, exact), t, m, lost)
  {
    var s' := Apply(s, i, Take, exact);
    var p := PcOf(s, i).ptr;
    TakeStep(s, i, t, m, exact);
    HeldNotPending(s, i, p);
    PendingAfter(s, i, PcOf(s', i));
    ThreadsSum(s, i, PcOf(s', i), t, m);
    assert Settled(s') == Settled(s) - {p};
    if p in s.pointers {
      SumRemove(Settled(s), RecordWeight(t, m), p);
    } else {
      assert Settled(s') == Settled(s);
    }
  }

  lemma BalancedKeptFinish(s: State, i: ThreadId, t: Trace, m: Metric, exact: bool, lost: nat)
    requires Ownership(s) && Enabled(s, i, Finish, exact)
    requires Balanced(s, t, m, lost)
    ensures Balanced(Apply(s, i, Finish, exact), t, m, lost)
  {
    var s' := Apply(s, i, Finish, exact);
    var pc := PcOf(s, i);
    GapAfterFree(s, pc.rec, t, m);
    PendingAfter(s, i, PcOf(s', i));
    ThreadsSum(s, i, PcOf(s', i), t, m);
    assert Settled(s') == Settled(s);
  }

  lemma BalancedKeptRestore(s: State, i: ThreadId, t: Trace, m: Metric, exact: bool, lost: nat)
    requires Ownership(s) && RoomToRestore(s) && Enabled(s, i, Restore, exact)
    requires Balanced(s, t, m, lost)
    ensures Balanced(Apply(s, i, Restore, exact), t, m, lost)
  {
    var s' := Apply(s, i, Restore, exact);
    var pc := PcOf(s, i);
    var w := RecordWeight(t, m);
    HeldNotPending(s, i, pc.ptr);
    PendingAfter(s, i, Idle);
    ThreadsSum(s, i, Idle, t, m);
    if pc.rec.Some? {
      assert Settled(s') == Settled(s)[pc.ptr := pc.rec.value];
      SumUpdate(Settled(s), w, pc.ptr, pc.rec.value);
    } else {
      assert Settled(s') == Settled(s);
    }
  }

  lemma BalancedKept(s: State, i: ThreadId, e: Event, t: Trace, m: Metric, exact: bool, lost: nat)
    requires Ownership(s) && PendingInPlace(s) && RoomToRestore(s) && Enabled(s, i, e, exact)
    requires Balanced(s, t, m, lost)
    ensures Balanced(Apply(s, i, e, exact), t, m, lost + LostBy(s, i, e, t, m))
  {
    match e
    case Insert => BalancedKeptInsert(s, i, t, m, exact, lost);
    case AddTotals => BalancedKeptAddTotals(s, i, t, m, exact, lost);
    case Take => BalancedKeptTake(s, i, t, m, exact, lost);
    case Finish => BalancedKeptFinish(s, i, t, m, exact, lost);
    case Restore => BalancedKeptRestore(s, i, t, m, exact, lost);
    case _ => BalancedKeptQuiet(s, i, e, t, m, exact, lost);
  }

  // ---------- the invariant over whole runs ----------

  ghost predicate Inv(s: State, exact: bool) {
    && Ownership(s)
    && PendingInPlace(s)
    && RoomToRestore(s)
    && (exact ==> Exact(s))
  }

  lemma InvKept(s: State, i: ThreadId, e: Event, exact: bool)
    requires Inv(s, exact) && Enabled(s, i, e, exact)
    ensures Inv(Apply(s, i, e, exact), exact)
  {
    OwnershipKept(s, i, e, exact);
    PendingKept(s, i, e, exact);
    RoomToRestoreKept(s, i, e, exact);
    if exact {
      RecordsLiveKept(s, i, e);
      RoomToInsertKept(s, i, e);
      TakenSizesKept(s, i, e);
    }
  }

  /** What a whole run destroys of a trace by inserting over stale records. */
  function Lost(s: State, steps: seq<Step>, t: Trace, m: Metric, exact: bool): nat
    requires Legal(s, steps, exact)
    decreases |steps|
  {
    if steps == [] then 0
    else LostBy(s, steps[0].thread, steps[0].event, t, m)
         + Lost(Apply(s, steps[0].thread, steps[0].event, exact), steps[1..], t, m, exact)
  }

  lemma {:induction false} InvOverRun(s: State, steps: seq<Step>, exact: bool)
    requires Inv(s, exact) && Legal(s, steps, exact)
    ensures Inv(Exec(s, steps, exact), exact)
    decreases |steps|
  {
    if steps != [] {
      InvKept(s, steps[0].thread, steps[0].event, exact);
      InvOverRun(Apply(s, steps[0].thread, steps[0].event, exact), steps[1..], exact);
    }
  }

  lemma {:induction false} BalanceOverRun(s: State, steps: seq<Step>, t: Trace, m: Metric, exact: bool, lost: nat)
    requires Inv(s, exact) && Legal(s, steps, exact) && Balanced(s, t, m, lost)
    ensures Balanced(Exec(s, steps, exact), t, m, lost + Lost(s, steps, t, m, exact))
    decreases |steps|
  {
    if steps != [] {
      var i, e := steps[0].thread, steps[0].event;
      InvKept(s, i, e, exact);
      BalancedKept(s, i, e, t, m, exact, lost);
      BalanceOverRun(Apply(s, i, e, exact), steps[1..], t, m, exact, lost + LostBy(s, i, e, t, m));
    }
  }

  lemma {:induction false} ExactLosesNothing(s: State, steps: seq<Step>, t: Trace, m: Metric)
    requires Inv(s, true) && Legal(s, steps, true)
    ensures Lost(s, steps, t, m, true) == 0
    decreases |steps|
  {
    if steps != [] {
      InvKept(s, steps[0].thread, steps[0].event, true);
      ExactLosesNothing(Apply(s, steps[0].thread, steps[0].event, true), steps[1..], t, m);
    }
  }

  // ---------- main results ----------

  /** Conservation, for every interleaving and every reuse of addresses, with or without the
      client discipline: a trace shows exactly what the pointer map and the calls in flight
      account for, plus what insertions over stale records destroyed. */
  lemma {:induction false} Conservation(steps: seq<Step>, t: Trace, m: Metric, exact: bool)
    requires Legal(INITIAL, steps, exact)
    ensures Gap(Exec(INITIAL, steps, exact), t, m)
         == Accounted(Exec(INITIAL, steps, exact), t, m) + Lost(INITIAL, steps, t, m, exact)
  {
    assert Settled(INITIAL) == map[];
    BalanceOverRun(INITIAL, steps, t, m, exact, 0);
  }

  /** The cumulative allocation figure of a trace. */
  function Allocated(s: State, t: Trace, m: Metric): nat {
    if m.Bytes? then TotalsOf(s.traces, t).allocBytes else TotalsOf(s.traces, t).allocs
  }

  /** The allocations that the steps of a run recorded under a trace. */
  function Recorded(s: State, steps: seq<Step>, t: Trace, m: Metric, exact: bool): nat
    requires Legal(s, steps, exact)
    decreases |steps|
  {
    if steps == [] then 0
    else
      var i, e := steps[0].thread, steps[0].event;
      var pc := PcOf(s, i);
      (if e.AddTotals? then Share(Record(pc.size, pc.trace), t, m) else 0)
      + Recorded(Apply(s, i, e, exact), steps[1..], t, m, exact)
  }

  /** The cumulative figures of a trace are exactly what its sampled allocations add up to;
      with `Conservation` this also fixes the freed figures. */
  lemma {:induction false} CumulativeTotals(s: State, steps: seq<Step>, t: Trace, m: Metric, exact: bool)
    requires Legal(s, steps, exact)
    ensures Allocated(Exec(s, steps, exact), t, m) == Allocated(s, t, m) + Recorded(s, steps, t, m, exact)
    decreases |steps|
  {
    if steps != [] {
      CumulativeTotals(Apply(s, steps[0].thread, steps[0].event, exact), steps[1..], t, m, exact);
    }
  }

  /** Under the discipline the ledger is exact, and every record describes a live block. */
  lemma {:induction false} ExactLedger(steps: seq<Step>, t: Trace, m: Metric)
    requires Legal(INITIAL, steps, true)
    ensures var s := Exec(INITIAL, steps, true);
            && Gap(s, t, m) == Accounted(s, t, m)
            && (forall p :: p in s.pointers ==> p in s.heap && s.pointers[p].size == s.heap[p])
  {
    Conservation(steps, t, m, true);
    ExactLosesNothing(INITIAL, steps, t, m);
    InvOverRun(INITIAL, steps, true);
  }

  /** No call is between its first and its last map operation. */
  ghost predicate Quiescent(s: State) {
    forall i :: PcOf(s, i).Idle? || PcOf(s, i).Reporting? || PcOf(s, i).AllocObtain?
  }

  /** With no call in flight, a trace shows exactly the recorded blocks that are still live,
      at their present layout size. */
  lemma {:induction false} QuiescentLedger(steps: seq<Step>, t: Trace, m: Metric)
    requires Legal(INITIAL, steps, true) && Quiescent(Exec(INITIAL, steps, true))
    ensures var s := Exec(INITIAL, steps, true);
            Gap(s, t, m) == Sum(s.pointers, RecordWeight(t, m))
  {
    var s := Exec(INITIAL, steps, true);
    ExactLedger(steps, t, m);
    forall i | i in s.threads ensures TakenShare(s.threads[i], t, m) == 0 && !s.threads[i].RecordTotals? {
      assert PcOf(s, i) == s.threads[i];
    }
    assert Pending(s.threads) == {};
    assert Settled(s) == s.pointers;
    SumAtMost(s.threads, TakenWeight(t, m), 0);
    SumNonNegative(s.threads, TakenWeight(t, m));
  }

  /** Under the discipline no insertion overwrites a record, even when a `realloc` moved the
      block and another thread was given the old address; restoring never collides under
      either discipline; and a record taken by a call has the size of the caller's layout. */
  lemma {:induction false} NoCollision(steps: seq<Step>, i: ThreadId, exact: bool)
    requires Legal(INITIAL, steps, exact)
    ensures var s := Exec(INITIAL, steps, exact);
            var pc := PcOf(s, i);
            && (pc.ReallocRestore? ==> pc.ptr !in s.pointers)
            && (exact && pc.RecordInsert? ==> pc.ptr !in s.pointers)
            && (exact && (pc.FreeTake? || pc.ReallocTake?) && pc.ptr in s.pointers ==>
                  s.pointers[pc.ptr].size == pc.size)
            && (exact && pc.FreeFinish? && pc.rec.Some? ==> pc.rec.value.size == pc.size)
            && (exact && pc.ReallocFinish? && pc.rec.Some? ==> pc.rec.value.size == pc.oldSize)
  {
    InvOverRun(INITIAL, steps, exact);
    var s := Exec(INITIAL, steps, exact);
    var pc := PcOf(s, i);
    if exact { assert TakenAtLayoutSize(pc); }
    if Held(pc).Some? { assert Holds(s, i, Held(pc).value.0); }
  }

  /** Whatever the client frees under the guard, no trace is ever charged more frees than
      allocations, so the saturating subtractions of the in-use figures never saturate. */
  lemma {:induction false} NeverOverFreed(steps: seq<Step>, t: Trace, exact: bool)
    requires Legal(INITIAL, steps, exact)
    ensures var s := Exec(INITIAL, steps, exact);
            var totals := TotalsOf(s.traces, t);
            && totals.freeBytes <= totals.allocBytes && totals.frees <= totals.allocs
            && totals.allocBytes - totals.freeBytes >= Accounted(s, t, Bytes) >= 0
            && totals.allocs - totals.frees >= Accounted(s, t, Count) >= 0
  {
    var s := Exec(INITIAL, steps, exact);
    forall m: Metric ensures Gap(s, t, m) >= Accounted(s, t, m) >= 0 {
      Conservation(steps, t, m, exact);
      SumNonNegative(Settled(s), RecordWeight(t, m));
      SumNonNegative(s.threads, TakenWeight(t, m));
    }
    assert Gap(s, t, Bytes) >= Accounted(s, t, Bytes) >= 0;
    assert Gap(s, t, Count) >= Accounted(s, t, Count) >= 0;
  }

  /** A trace under which no block is held has no bytes held either. */
  lemma {:induction false} NoBlocksNoBytes(s: State, t: Trace)
    requires Accounted(s, t, Count) == 0
    ensures Accounted(s, t, Bytes) == 0
  {
    SumNonNegative(Settled(s), RecordWeight(t, Count));
    SumNonNegative(s.threads, TakenWeight(t, Count));
    SumVanishes(Settled(s), RecordWeight(t, Count), RecordWeight(t, Bytes));
    SumVanishes(s.threads, TakenWeight(t, Count), TakenWeight(t, Bytes));
  }

  lemma {:induction false} ExecAppend(s: State, steps: seq<Step>, i: ThreadId, e: Event, exact: bool)
    requires Legal(s, steps, exact) && Enabled(Exec(s, steps, exact), i, e, exact)
    ensures Legal(s, steps + [Step(i, e)], exact)
    ensures Exec(s, steps + [Step(i, e)], exact) == Apply(Exec(s, steps, exact), i, e, exact)
    decreases |steps|
  {
    var longer := steps + [Step(i, e)];
    if steps == [] {
      assert longer[1..] == [];
    } else {
      assert longer[1..] == steps[1..] + [Step(i, e)];
      ExecAppend(Apply(s, steps[0].thread, steps[0].event, exact), steps[1..], i, e, exact);
    }
  }

  /** Adds one step to a run from the initial state. */
  lemma Extend(run: seq<Step>, i: ThreadId, e: Event, exact: bool) returns (run': seq<Step>)
    requires Legal(INITIAL, run, exact) && Enabled(Exec(INITIAL, run, exact), i, e, exact)
    ensures Legal(INITIAL, run', exact)
    ensures Exec(INITIAL, run', exact) == Apply(Exec(INITIAL, run, exact), i, e, exact)
  {
    run' := run + [Step(i, e)];
    ExecAppend(INITIAL, run, i, e, exact);
  }

  /** Thread 0 obtains a block. */
  lemma Allocate(run: seq<Step>, ptr: Addr, size: nat, exact: bool) returns (run': seq<Step>)
    requires Legal(INITIAL, run, exact)
    requires PcOf(Exec(INITIAL, run, exact), 0).Idle? && ptr !in Exec(INITIAL, run, exact).heap
    ensures Legal(INITIAL, run', exact)
    ensures var s, s' := Exec(INITIAL, run, exact), Exec(INITIAL, run', exact);
            s' == s.(heap := s.heap[ptr := size], threads := s.threads[0 := Obtained(ptr, size, false)])
  {
    run' := Extend(run, 0, CallAlloc(size), exact);
    run' := Extend(run', 0, Obtain(ptr), exact);
  }

  /** Thread 0 obtains a block and decides to record it. */
  lemma AllocateForRecord(run: seq<Step>, ptr: Addr, size: nat, trace: Trace, exact: bool) returns (run': seq<Step>)
    requires Legal(INITIAL, run, exact)
    requires PcOf(Exec(INITIAL, run, exact), 0).Idle? && ptr !in Exec(INITIAL, run, exact).heap
    ensures Legal(INITIAL, run', exact)
    ensures var s, s' := Exec(INITIAL, run, exact), Exec(INITIAL, run', exact);
            s' == s.(heap := s.heap[ptr := size], threads := s.threads[0 := RecordInsert(ptr, size, trace)])
  {
    run' := Allocate(run, ptr, size, exact);
    run' := Extend(run', 0, Sampled(trace), exact);
  }

  /** Thread 0 allocates a block and records it. */
  lemma AllocateAndRecord(run: seq<Step>, ptr: Addr, size: nat, trace: Trace, exact: bool) returns (run': seq<Step>)
    requires Legal(INITIAL, run, exact)
    requires PcOf(Exec(INITIAL, run, exact), 0).Idle? && ptr !in Exec(INITIAL, run, exact).heap
    ensures Legal(INITIAL, run', exact)
    ensures var s, s' := Exec(INITIAL, run, exact), Exec(INITIAL, run', exact);
            s' == State(s.heap[ptr := size], s.client + {ptr}, s.pointers[ptr := Record(size, trace)],
                        AddAllocation(s.traces, Record(size, trace)), s.threads[0 := Idle])
  {
    run' := AllocateForRecord(run, ptr, size, trace, exact);
    run' := Extend(run', 0, Insert, exact);
    run' := Extend(run', 0, AddTotals, exact);
  }

  /** Thread 0 releases a block of the client under the recursion guard. */
  lemma FreeWhileReporting(run: seq<Step>, ptr: Addr) returns (run': seq<Step>)
    requires Legal(INITIAL, run, false)
    requires PcOf(Exec(INITIAL, run, false), 0).Idle? && ptr in Exec(INITIAL, run, false).client
    ensures Legal(INITIAL, run', false)
    ensures var s, s' := Exec(INITIAL, run, false), Exec(INITIAL, run', false);
            s' == State(s.heap - {ptr}, s.client - {ptr}, s.pointers, s.traces, s.threads[0 := Idle])
  {
    run' := Extend(run, 0, BeginReport, false);
    run' := Extend(run', 0, NestedDealloc(ptr), false);
    run' := Extend(run', 0, EndReport, false);
  }

  /** Thread 0 takes the record of a block it frees. */
  lemma TakeForFree(run: seq<Step>, ptr: Addr, exact: bool) returns (run': seq<Step>)
    requires Legal(INITIAL, run, exact)
    requires var s := Exec(INITIAL, run, exact); PcOf(s, 0).Idle? && ptr in s.client && ptr in s.heap
    ensures Legal(INITIAL, run', exact)
    ensures var s, s' := Exec(INITIAL, run, exact), Exec(INITIAL, run', exact);
            s' == s.(client := s.client - {ptr}, pointers := s.pointers - {ptr},
                     threads := s.threads[0 := FreeRelease(ptr, s.heap[ptr], Lookup(s.pointers, ptr))])
  {
    run' := Extend(run, 0, CallDealloc(ptr), exact);
    run' := Extend(run', 0, Take, exact);
  }

  /** Thread 0 calls `dealloc` on a block of the client. */
  lemma FreeTracked(run: seq<Step>, ptr: Addr, exact: bool) returns (run': seq<Step>)
    requires Legal(INITIAL, run, exact)
    requires var s := Exec(INITIAL, run, exact); PcOf(s, 0).Idle? && ptr in s.client && ptr in s.heap
    ensures Legal(INITIAL, run', exact)
    ensures var s, s' := Exec(INITIAL, run, exact), Exec(INITIAL, run', exact);
            s' == State(s.heap - {ptr}, s.client - {ptr}, s.pointers - {ptr},
                        AddFree(s.traces, Lookup(s.pointers, ptr)), s.threads[0 := Idle])
  {
    run' := TakeForFree(run, ptr, exact);
    run' := Extend(run', 0, Release, exact);
    run' := Extend(run', 0, Finish, exact);
  }

  /** What a run has destroyed stays destroyed, however it goes on. */
  lemma {:induction false} LossRemains(steps: seq<Step>, more: seq<Step>, t: Trace, m: Metric, exact: bool)
    requires Legal(INITIAL, steps, exact) && Legal(Exec(INITIAL, steps, exact), more, exact)
    ensures var s := Exec(Exec(INITIAL, steps, exact), more, exact);
            Gap(s, t, m) >= Accounted(s, t, m) + Lost(INITIAL, steps, t, m, exact)
  {
    Conservation(steps, t, m, exact);
    InvOverRun(INITIAL, steps, exact);
    BalanceOverRun(Exec(INITIAL, steps, exact), more, t, m, exact, Lost(INITIAL, steps, t, m, exact));
  }

  /** A recorded block released under the guard, whose address is handed out and recorded again. */
  lemma GuardedFreeRun() returns (run: seq<Step>)
    ensures Legal(INITIAL, run, false)
    ensures var s := Exec(INITIAL, run, false);
            s.heap == map[] && s.pointers == map[] && s.threads == map[0 := Idle] && Gap(s, [1], Bytes) == 8
  {
    var first, second := Record(8, [1]), Record(4, [2]);
    run := AllocateAndRecord([], 64, 8, [1], false);
    run := FreeWhileReporting(run, 64);
    assert Exec(INITIAL, run, false).heap == map[];
    run := AllocateAndRecord(run, 64, 4, [2], false);
    ghost var traces := Exec(INITIAL, run, false).traces;
    assert traces == AddAllocation(AddAllocation(map[], first), second);
    run := FreeTracked(run, 64, false);
    assert Exec(INITIAL, run, false).traces == AddFree(traces, Some(second));
    assert first.trace != second.trace;
  }

  /** The discipline is needed: without it a run can leave a trace showing bytes that no block
      holds, for ever: they stay however the run goes on. */
  lemma GuardedFreeLoses() returns (run: seq<Step>)
    ensures Legal(INITIAL, run, false)
    ensures var s := Exec(INITIAL, run, false);
            && s.heap == map[] && s.pointers == map[] && PcOf(s, 0).Idle? && Gap(s, [1], Bytes) == 8
            && forall more | Legal(s, more, false) ::
                 Gap(Exec(s, more, false), [1], Bytes) >= Accounted(Exec(s, more, false), [1], Bytes) + 8
  {
    run := GuardedFreeRun();
    var s := Exec(INITIAL, run, false);
    ThreadsSum(INITIAL, 0, Idle, [1], Bytes);
    assert Settled(s) == map[] && Accounted(s, [1], Bytes) == 0;
    Conservation(run, [1], Bytes, false);
    forall more | Legal(s, more, false)
      ensures Gap(Exec(s, more, false), [1], Bytes) >= Accounted(Exec(s, more, false), [1], Bytes) + 8
    {
      LossRemains(run, more, [1], Bytes, false);
    }
  }
}
