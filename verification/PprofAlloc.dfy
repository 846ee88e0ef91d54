/** The wrapper-profiled paths of the allocator, as one thread executes them: each call runs
    exactly the protocol steps of module `Ledger`, in order. */
module PprofAllocCalls {
  import opened Wrappers
  import opened Ledger

  // ---------- the steps of an undisturbed call ----------

  function RecordSteps(sampled: Option<Trace>): seq<Step> {
    match sampled
    case None => [Step(0, NotSampled)]
    case Some(trace) => [Step(0, Sampled(trace)), Step(0, Insert), Step(0, AddTotals)]
  }

  function AllocSteps(size: nat, answer: Option<Addr>, sampled: Option<Trace>): seq<Step> {
    match answer
    case None => [Step(0, CallAlloc(size)), Step(0, ObtainFails)]
    case Some(ptr) => [Step(0, CallAlloc(size)), Step(0, Obtain(ptr))] + RecordSteps(sampled)
  }

  function DeallocSteps(ptr: Addr): seq<Step> {
    [Step(0, CallDealloc(ptr)), Step(0, Take), Step(0, Release), Step(0, Finish)]
  }

  function ReallocSteps(ptr: Addr, newSize: nat, answer: Option<Addr>, sampled: Option<Trace>,
                        recorded: bool): seq<Step>
  {
    match answer
    case None => [Step(0, CallRealloc(ptr, newSize)), Step(0, Take), Step(0, Fails)]
                 + if recorded then [Step(0, Restore)] else []
    case Some(to) => [Step(0, CallRealloc(ptr, newSize)), Step(0, Take), Step(0, Moves(to)), Step(0, Finish)]
                     + RecordSteps(sampled)
  }

  /** A run continues the state `s` to the state `s'`. */
  predicate Runs(s: State, steps: seq<Step>, s': State) {
    Legal(s, steps, false) && Exec(s, steps, false) == s'
  }

  lemma RunsStep(s: State, i: ThreadId, e: Event, rest: seq<Step>, s': State)
    requires Enabled(s, i, e, false) && Runs(Apply(s, i, e, false), rest, s')
    ensures Runs(s, [Step(i, e)] + rest, s')
  {
    assert ([Step(i, e)] + rest)[1..] == rest;
  }

  lemma Runs1(s: State, e: Event)
    requires Enabled(s, 0, e, false)
    ensures Runs(s, [Step(0, e)], Apply(s, 0, e, false))
  {
    assert Legal(Apply(s, 0, e, false), [], false);
    RunsStep(s, 0, e, [], Apply(s, 0, e, false));
  }

  /** The state `s` with thread 0, and no other, at `pc`. */
  function Alone(s: State, pc: Pc): State {
    s.(threads := map[0 := pc])
  }

  /** What recording a new block, or declining to, leaves behind. */
  function AfterRecord(s: State, ptr: Addr, size: nat, sampled: Option<Trace>): State {
    match sampled
    case None => s.(client := s.client + {ptr})
    case Some(trace) =>
      s.(client := s.client + {ptr},
         pointers := s.pointers[ptr := Record(size, trace)],
         traces := AddAllocation(s.traces, Record(size, trace)))
  }

  lemma InsertRuns(s: State, ptr: Addr, size: nat, trace: Trace)
    ensures Runs(Alone(s, RecordInsert(ptr, size, trace)), [Step(0, Insert)] + [Step(0, AddTotals)],
                 Alone(AfterRecord(s, ptr, size, Some(trace)), Idle))
  {
    var s1 := Alone(s, RecordInsert(ptr, size, trace));
    var s2 := Alone(s.(pointers := s.pointers[ptr := Record(size, trace)]), RecordTotals(ptr, size, trace));
    assert Apply(s1, 0, Insert, false) == s2;
    Runs1(s2, AddTotals);
    RunsStep(s1, 0, Insert, [Step(0, AddTotals)], Apply(s2, 0, AddTotals, false));
  }

  lemma RecordRuns(s: State, ptr: Addr, size: nat, sampled: Option<Trace>, guarded: bool)
    ensures Runs(Alone(s, Obtained(ptr, size, guarded)), RecordSteps(sampled),
                 Alone(AfterRecord(s, ptr, size, sampled), Idle))
  {
    var s0 := Alone(s, Obtained(ptr, size, guarded));
    match sampled {
      case None => Runs1(s0, NotSampled);
      case Some(trace) =>
        assert Apply(s0, 0, Sampled(trace), false) == Alone(s, RecordInsert(ptr, size, trace));
        InsertRuns(s, ptr, size, trace);
        RunsStep(s0, 0, Sampled(trace), [Step(0, Insert)] + [Step(0, AddTotals)],
                 Alone(AfterRecord(s, ptr, size, sampled), Idle));
        assert RecordSteps(sampled) == [Step(0, Sampled(trace))] + ([Step(0, Insert)] + [Step(0, AddTotals)]);
    }
  }

  lemma ObtainRuns(s: State, size: nat, ptr: Addr, tail: seq<Step>, s': State)
    requires ptr !in s.heap
    requires Runs(Alone(s.(heap := s.heap[ptr := size]), Obtained(ptr, size, false)), tail, s')
    ensures Runs(Alone(s, AllocObtain(size)), [Step(0, Obtain(ptr))] + tail, s')
  {
    assert Apply(Alone(s, AllocObtain(size)), 0, Obtain(ptr), false)
        == Alone(s.(heap := s.heap[ptr := size]), Obtained(ptr, size, false));
    RunsStep(Alone(s, AllocObtain(size)), 0, Obtain(ptr), tail, s');
  }

  lemma StartAlloc(s: State, size: nat, tail: seq<Step>, s': State)
    requires Runs(Alone(s, AllocObtain(size)), tail, s')
    ensures Runs(Alone(s, Idle), [Step(0, CallAlloc(size))] + tail, s')
  {
    assert Apply(Alone(s, Idle), 0, CallAlloc(size), false) == Alone(s, AllocObtain(size));
    RunsStep(Alone(s, Idle), 0, CallAlloc(size), tail, s');
  }

  lemma AllocRuns(s: State, size: nat, ptr: Addr, sampled: Option<Trace>)
    requires ptr !in s.heap
    ensures Runs(Alone(s, Idle), AllocSteps(size, Some(ptr), sampled),
                 Alone(AfterRecord(s.(heap := s.heap[ptr := size]), ptr, size, sampled), Idle))
  {
    var s' := Alone(AfterRecord(s.(heap := s.heap[ptr := size]), ptr, size, sampled), Idle);
    RecordRuns(s.(heap := s.heap[ptr := size]), ptr, size, sampled, false);
    ObtainRuns(s, size, ptr, RecordSteps(sampled), s');
    StartAlloc(s, size, [Step(0, Obtain(ptr))] + RecordSteps(sampled), s');
    assert AllocSteps(size, Some(ptr), sampled)
        == [Step(0, CallAlloc(size))] + ([Step(0, Obtain(ptr))] + RecordSteps(sampled));
  }

  lemma AllocFailsRuns(s: State, size: nat, sampled: Option<Trace>)
    ensures Runs(Alone(s, Idle), AllocSteps(size, None, sampled), Alone(s, Idle))
  {
    var s1 := Alone(s, AllocObtain(size));
    assert Apply(Alone(s, Idle), 0, CallAlloc(size), false) == s1;
    assert Apply(s1, 0, ObtainFails, false) == Alone(s, Idle);
    Runs1(s1, ObtainFails);
    RunsStep(Alone(s, Idle), 0, CallAlloc(size), [Step(0, ObtainFails)], Alone(s, Idle));
    assert AllocSteps(size, None, sampled) == [Step(0, CallAlloc(size))] + [Step(0, ObtainFails)];
  }

  function AfterDealloc(s: State, ptr: Addr): State {
    s.(heap := s.heap - {ptr}, client := s.client - {ptr}, pointers := s.pointers - {ptr},
       traces := AddFree(s.traces, Lookup(s.pointers, ptr)))
  }

  /** The state once the call has taken the block from the client and its record from the map. */
  function AfterTake(s: State, ptr: Addr): State {
    s.(client := s.client - {ptr}, pointers := s.pointers - {ptr})
  }

  lemma TakeForDealloc(s: State, ptr: Addr, n: nat, tail: seq<Step>, s': State)
    requires Runs(Alone(s.(pointers := s.pointers - {ptr}), FreeRelease(ptr, n, Lookup(s.pointers, ptr))), tail, s')
    ensures Runs(Alone(s, FreeTake(ptr, n)), [Step(0, Take)] + tail, s')
  {
    var s1 := Alone(s, FreeTake(ptr, n));
    assert Apply(s1, 0, Take, false)
        == Alone(s.(pointers := s.pointers - {ptr}), FreeRelease(ptr, n, Lookup(s.pointers, ptr)));
    RunsStep(s1, 0, Take, tail, s');
  }

  lemma StartDealloc(s: State, ptr: Addr, rest: seq<Step>, s': State)
    requires ptr in s.client && ptr in s.heap
    requires Runs(Alone(s.(client := s.client - {ptr}), FreeTake(ptr, s.heap[ptr])), rest, s')
    ensures Runs(Alone(s, Idle), [Step(0, CallDealloc(ptr))] + rest, s')
  {
    assert Apply(Alone(s, Idle), 0, CallDealloc(ptr), false)
        == Alone(s.(client := s.client - {ptr}), FreeTake(ptr, s.heap[ptr]));
    RunsStep(Alone(s, Idle), 0, CallDealloc(ptr), rest, s');
  }

  lemma EndDealloc(s: State, ptr: Addr, n: nat, rec: Option<Record>)
    ensures Runs(Alone(s, FreeRelease(ptr, n, rec)), [Step(0, Release)] + [Step(0, Finish)],
                 Alone(s.(heap := s.heap - {ptr}, traces := AddFree(s.traces, rec)), Idle))
  {
    var s3 := Alone(s.(heap := s.heap - {ptr}), FreeFinish(n, rec));
    assert Apply(Alone(s, FreeRelease(ptr, n, rec)), 0, Release, false) == s3;
    assert Apply(s3, 0, Finish, false) == Alone(s.(heap := s.heap - {ptr}, traces := AddFree(s.traces, rec)), Idle);
    Runs1(s3, Finish);
    RunsStep(Alone(s, FreeRelease(ptr, n, rec)), 0, Release, [Step(0, Finish)], Apply(s3, 0, Finish, false));
  }

  lemma DeallocRuns(s: State, ptr: Addr)
    requires ptr in s.client && ptr in s.heap
    ensures Runs(Alone(s, Idle), DeallocSteps(ptr), Alone(AfterDealloc(s, ptr), Idle))
  {
    var tail := [Step(0, Release)] + [Step(0, Finish)];
    EndDealloc(AfterTake(s, ptr), ptr, s.heap[ptr], Lookup(s.pointers, ptr));
    TakeForDealloc(s.(client := s.client - {ptr}), ptr, s.heap[ptr], tail, Alone(AfterDealloc(s, ptr), Idle));
    StartDealloc(s, ptr, [Step(0, Take)] + tail, Alone(AfterDealloc(s, ptr), Idle));
    assert DeallocSteps(ptr) == [Step(0, CallDealloc(ptr))] + ([Step(0, Take)] + tail);
  }

  function AfterMove(s: State, ptr: Addr, to: Addr, newSize: nat): State {
    s.(heap := (s.heap - {ptr})[to := newSize], client := s.client - {ptr}, pointers := s.pointers - {ptr},
       traces := AddFree(s.traces, Lookup(s.pointers, ptr)))
  }

  lemma TakeForRealloc(s: State, ptr: Addr, n: nat, newSize: nat, tail: seq<Step>, s': State)
    requires Runs(Alone(s.(pointers := s.pointers - {ptr}), ReallocBackend(ptr, n, newSize, Lookup(s.pointers, ptr))),
                  tail, s')
    ensures Runs(Alone(s, ReallocTake(ptr, n, newSize)), [Step(0, Take)] + tail, s')
  {
    var s1 := Alone(s, ReallocTake(ptr, n, newSize));
    assert Apply(s1, 0, Take, false)
        == Alone(s.(pointers := s.pointers - {ptr}), ReallocBackend(ptr, n, newSize, Lookup(s.pointers, ptr)));
    RunsStep(s1, 0, Take, tail, s');
  }

  lemma StartRealloc(s: State, ptr: Addr, newSize: nat, tail: seq<Step>, s': State)
    requires ptr in s.client && ptr in s.heap
    requires Runs(Alone(AfterTake(s, ptr), ReallocBackend(ptr, s.heap[ptr], newSize, Lookup(s.pointers, ptr))), tail,
                  s')
    ensures Runs(Alone(s, Idle), [Step(0, CallRealloc(ptr, newSize))] + ([Step(0, Take)] + tail), s')
  {
    TakeForRealloc(s.(client := s.client - {ptr}), ptr, s.heap[ptr], newSize, tail, s');
    assert Apply(Alone(s, Idle), 0, CallRealloc(ptr, newSize), false)
        == Alone(s.(client := s.client - {ptr}), ReallocTake(ptr, s.heap[ptr], newSize));
    RunsStep(Alone(s, Idle), 0, CallRealloc(ptr, newSize), [Step(0, Take)] + tail, s');
  }

  lemma FinishMove(s: State, to: Addr, newSize: nat, n: nat, rec: Option<Record>, tail: seq<Step>, s': State)
    requires Runs(Alone(s.(traces := AddFree(s.traces, rec)), Obtained(to, newSize, true)), tail, s')
    ensures Runs(Alone(s, ReallocFinish(to, newSize, n, rec)), [Step(0, Finish)] + tail, s')
  {
    var s3 := Alone(s, ReallocFinish(to, newSize, n, rec));
    assert Apply(s3, 0, Finish, false) == Alone(s.(traces := AddFree(s.traces, rec)), Obtained(to, newSize, true));
    RunsStep(s3, 0, Finish, tail, s');
  }

  lemma MoveRuns(s: State, ptr: Addr, n: nat, newSize: nat, to: Addr, rec: Option<Record>, tail: seq<Step>, s': State)
    requires to == ptr || to !in s.heap
    requires Runs(Alone(s.(heap := (s.heap - {ptr})[to := newSize]), ReallocFinish(to, newSize, n, rec)), tail, s')
    ensures Runs(Alone(s, ReallocBackend(ptr, n, newSize, rec)), [Step(0, Moves(to))] + tail, s')
  {
    hide Runs, AddFree, AddAllocation;
    var s2 := Alone(s, ReallocBackend(ptr, n, newSize, rec));
    assert Apply(s2, 0, Moves(to), false)
        == Alone(s.(heap := (s.heap - {ptr})[to := newSize]), ReallocFinish(to, newSize, n, rec));
    RunsStep(s2, 0, Moves(to), tail, s');
  }

  lemma ReallocRuns(s: State, ptr: Addr, newSize: nat, to: Addr, sampled: Option<Trace>, recorded: bool)
    requires ptr in s.client && ptr in s.heap && (to == ptr || to !in s.heap)
    ensures Runs(Alone(s, Idle), ReallocSteps(ptr, newSize, Some(to), sampled, recorded),
                 Alone(AfterRecord(AfterMove(s, ptr, to, newSize), to, newSize, sampled), Idle))
  {
    var s' := Alone(AfterRecord(AfterMove(s, ptr, to, newSize), to, newSize, sampled), Idle);
    var tail := RecordSteps(sampled);
    RecordRuns(AfterMove(s, ptr, to, newSize), to, newSize, sampled, true);
    var moved := AfterTake(s, ptr).(heap := (s.heap - {ptr})[to := newSize]);
    FinishMove(moved, to, newSize, s.heap[ptr], Lookup(s.pointers, ptr), tail, s');
    MoveRuns(AfterTake(s, ptr), ptr, s.heap[ptr], newSize, to, Lookup(s.pointers, ptr), [Step(0, Finish)] + tail, s');
    StartRealloc(s, ptr, newSize, [Step(0, Moves(to))] + ([Step(0, Finish)] + tail), s');
    assert ReallocSteps(ptr, newSize, Some(to), sampled, recorded)
        == [Step(0, CallRealloc(ptr, newSize))]
          + ([Step(0, Take)] + ([Step(0, Moves(to))] + ([Step(0, Finish)] + tail)));
  }

  lemma FailRuns(s: State, ptr: Addr, newSize: nat)
    requires ptr in s.client && ptr in s.heap
    ensures Runs(Alone(AfterTake(s, ptr), ReallocBackend(ptr, s.heap[ptr], newSize, Lookup(s.pointers, ptr))),
                 [Step(0, Fails)] + if ptr in s.pointers then [Step(0, Restore)] else [], Alone(s, Idle))
  {
    var n, rec := s.heap[ptr], Lookup(s.pointers, ptr);
    var s2 := Alone(AfterTake(s, ptr), ReallocBackend(ptr, n, newSize, rec));
    assert s.client - {ptr} + {ptr} == s.client;
    if ptr in s.pointers {
      var s3 := Alone(AfterTake(s, ptr), ReallocRestore(ptr, n, rec));
      assert Apply(s2, 0, Fails, false) == s3;
      assert (s.pointers - {ptr})[ptr := s.pointers[ptr]] == s.pointers;
      assert Apply(s3, 0, Restore, false) == Alone(s, Idle);
      Runs1(s3, Restore);
      RunsStep(s2, 0, Fails, [Step(0, Restore)], Alone(s, Idle));
    } else {
      assert s.pointers - {ptr} == s.pointers;
      Runs1(s2, Fails);
      assert [Step(0, Fails)] + [] == [Step(0, Fails)];
    }
  }

  lemma ReallocFailsRuns(s: State, ptr: Addr, newSize: nat, sampled: Option<Trace>)
    requires ptr in s.client && ptr in s.heap
    ensures Runs(Alone(s, Idle), ReallocSteps(ptr, newSize, None, sampled, ptr in s.pointers), Alone(s, Idle))
  {
    var tail := [Step(0, Fails)] + if ptr in s.pointers then [Step(0, Restore)] else [];
    FailRuns(s, ptr, newSize);
    StartRealloc(s, ptr, newSize, tail, Alone(s, Idle));
    assert ReallocSteps(ptr, newSize, None, sampled, ptr in s.pointers)
        == [Step(0, CallRealloc(ptr, newSize))] + ([Step(0, Take)] + tail);
  }

  // ---------- what a call books ----------

  function BytesUnder(rec: Option<Record>, t: Trace): nat {
    if rec.Some? && rec.value.trace == t then rec.value.size else 0
  }

  function CountUnder(rec: Option<Record>, t: Trace): nat {
    if rec.Some? && rec.value.trace == t then 1 else 0
  }

  /** Every trace gains the bytes and the count of what was allocated and of what was freed under
      it, and nothing else. */
  ghost predicate Booked(before: map<Trace, Totals>, after: map<Trace, Totals>, made: Option<Record>,
                         freed: Option<Record>)
  {
    forall t: Trace :: BookedUnder(TotalsOf(before, t), TotalsOf(after, t), made, freed, t)
  }

  predicate BookedUnder(was: Totals, now: Totals, made: Option<Record>, freed: Option<Record>, t: Trace) {
    && now.allocBytes == was.allocBytes + BytesUnder(made, t)
    && now.allocs == was.allocs + CountUnder(made, t)
    && now.freeBytes == was.freeBytes + BytesUnder(freed, t)
    && now.frees == was.frees + CountUnder(freed, t)
  }

  lemma AdditionBooked(before: map<Trace, Totals>, r: Record)
    ensures Booked(before, AddAllocation(before, r), Some(r), None)
  {
  }

  lemma FreeBooked(before: map<Trace, Totals>, rec: Option<Record>)
    ensures Booked(before, AddFree(before, rec), None, rec)
  {
  }

  lemma BothBooked(before: map<Trace, Totals>, between: map<Trace, Totals>, after: map<Trace, Totals>,
                   made: Option<Record>, freed: Option<Record>)
    requires Booked(before, between, None, freed) && Booked(between, after, made, None)
    ensures Booked(before, after, made, freed)
  {
    forall t: Trace ensures BookedUnder(TotalsOf(before, t), TotalsOf(after, t), made, freed, t) {
      assert BookedUnder(TotalsOf(before, t), TotalsOf(between, t), None, freed, t);
      assert BookedUnder(TotalsOf(between, t), TotalsOf(after, t), made, None, t);
    }
  }

  /** The wrapper in a profiling mode with a fixed non-zero rate, its two maps, and the
      backing allocator's live blocks. */
  class PprofAlloc {
    var pointerMap: map<Addr, Record>
    var traceMap: map<Trace, Totals>
    var heap: map<Addr, nat>
    var client: set<Addr>
    var inAlloc: bool

    /** The state of the protocol with this thread at `pc`. */
    ghost function At(pc: Pc): State
      reads this
    {
      State(heap, client, pointerMap, traceMap, map[0 := pc])
    }

    ghost function View(): State
      reads this
    {
      At(if inAlloc then Reporting else Idle)
    }

    ghost predicate Valid()
      reads this
    {
      client <= heap.Keys
    }

    constructor ()
      ensures Valid() && View() == INITIAL.(threads := map[0 := Idle])
    {
      pointerMap, traceMap, heap, client, inAlloc := map[], map[], map[], {}, false;
    }

    method RecordAllocationWithTrace(ptr: Addr, size: nat, trace: Trace)
      modifies this`pointerMap, this`traceMap
      ensures pointerMap == old(pointerMap)[ptr := Record(size, trace)]
      ensures traceMap == AddAllocation(old(traceMap), Record(size, trace))
      ensures Booked(old(traceMap), traceMap, Some(Record(size, trace)), None)
    {
      AdditionBooked(traceMap, Record(size, trace));
      pointerMap := pointerMap[ptr := Record(size, trace)];
      var stats := if trace in traceMap then traceMap[trace] else NO_TOTALS;
      stats := stats.(allocBytes := stats.allocBytes + size);
      stats := stats.(allocs := stats.allocs + 1);
      traceMap := traceMap[trace := stats];
    }

    method TakeAllocationRecord(ptr: Addr) returns (rec: Option<Record>)
      modifies this`pointerMap
      ensures pointerMap == old(pointerMap) - {ptr} && rec == Lookup(old(pointerMap), ptr)
    {
      if ptr in pointerMap {
        rec := Some(pointerMap[ptr]);
        pointerMap := pointerMap - {ptr};
      } else {
        rec := None;
        assert pointerMap == pointerMap - {ptr};
      }
    }

    method RestoreAllocationRecord(ptr: Addr, rec: Record)
      modifies this`pointerMap
      ensures pointerMap == old(pointerMap)[ptr := rec]
    {
      pointerMap := pointerMap[ptr := rec];
    }

    /** Also tells the size that the coarse counters are charged with. */
    method FinishDeallocation(rec: Option<Record>, size: nat) returns (freedSize: nat)
      modifies this`traceMap
      ensures traceMap == AddFree(old(traceMap), rec) && Booked(old(traceMap), traceMap, None, rec)
      ensures freedSize == if rec.Some? then rec.value.size else size
    {
      FreeBooked(traceMap, rec);
      freedSize := if rec.Some? then rec.value.size else size;
      if rec.Some? {
        var stats := if rec.value.trace in traceMap then traceMap[rec.value.trace] else NO_TOTALS;
        stats := stats.(freeBytes := stats.freeBytes + freedSize);
        stats := stats.(frees := stats.frees + 1);
        traceMap := traceMap[rec.value.trace := stats];
      }
    }

    /** Records a new block unless the sampler declines it. */
    method RecordTrackedAllocation(ptr: Addr, size: nat, sampled: Option<Trace>)
      requires Valid() && ptr in heap
      modifies this`pointerMap, this`traceMap, this`client, this`inAlloc
      ensures Valid() && inAlloc == old(inAlloc)
      ensures At(Idle) == Alone(AfterRecord(old(At(Idle)), ptr, size, sampled), Idle)
      ensures client == old(client) + {ptr}
      ensures if sampled.None? then pointerMap == old(pointerMap) && traceMap == old(traceMap)
              else pointerMap == old(pointerMap)[ptr := Record(size, sampled.value)]
                   && Booked(old(traceMap), traceMap, Some(Record(size, sampled.value)), None)
    {
      if sampled.Some? {
        var saved := inAlloc;
        inAlloc := true;
        RecordAllocationWithTrace(ptr, size, sampled.value);
        inAlloc := saved;
      }
      client := client + {ptr};
    }

    /** `answer` is what the backend returns and `sampled` what the sampler decides. */
    method Alloc(size: nat, answer: Option<Addr>, sampled: Option<Trace>)
      requires Valid() && (answer.Some? ==> answer.value !in heap)
      modifies this
      ensures Valid() && inAlloc == old(inAlloc)
      ensures !old(inAlloc) ==> Runs(old(View()), AllocSteps(size, answer, sampled), View())
      ensures old(inAlloc) && answer.Some? ==> Runs(old(View()), [Step(0, NestedAlloc(answer.value, size))], View())
      ensures answer.None? ==> View() == old(View())
      ensures answer.Some? ==> heap == old(heap)[answer.value := size] && client == old(client) + {answer.value}
      ensures if old(inAlloc) || answer.None? || sampled.None?
              then pointerMap == old(pointerMap) && traceMap == old(traceMap)
              else pointerMap == old(pointerMap)[answer.value := Record(size, sampled.value)]
                   && Booked(old(traceMap), traceMap, Some(Record(size, sampled.value)), None)
    {
      hide Booked;
      ghost var s0 := View();
      if answer.Some? {
        heap := heap[answer.value := size];
      }
      if inAlloc {
        if answer.Some? {
          client := client + {answer.value};
          Runs1(s0, NestedAlloc(answer.value, size));
        }
      } else if answer.Some? {
        RecordTrackedAllocation(answer.value, size, sampled);
        AllocRuns(s0, size, answer.value, sampled);
      } else {
        AllocFailsRuns(s0, size, sampled);
      }
    }

    method Dealloc(ptr: Addr)
      requires Valid() && ptr in client
      modifies this
      ensures Valid() && inAlloc == old(inAlloc)
      ensures Runs(old(View()), if old(inAlloc) then [Step(0, NestedDealloc(ptr))] else DeallocSteps(ptr), View())
      ensures heap == old(heap) - {ptr} && client == old(client) - {ptr}
      ensures if old(inAlloc) then pointerMap == old(pointerMap) && traceMap == old(traceMap)
              else pointerMap == old(pointerMap) - {ptr}
                   && Booked(old(traceMap), traceMap, None,
                             if ptr in old(pointerMap) then Some(old(pointerMap)[ptr]) else None)
    {
      hide Booked;
      ghost var s0 := View();
      var size := heap[ptr];
      client := client - {ptr};
      if inAlloc {
        heap := heap - {ptr};
        Runs1(s0, NestedDealloc(ptr));
      } else {
        inAlloc := true;
        var rec := TakeAllocationRecord(ptr);
        heap := heap - {ptr};
        var freed := FinishDeallocation(rec, size);
        inAlloc := false;
        DeallocRuns(s0, ptr);
      }
    }

    method Realloc(ptr: Addr, newSize: nat, answer: Option<Addr>, sampled: Option<Trace>)
      requires Valid() && ptr in client
      requires answer.Some? ==> answer.value == ptr || answer.value !in heap
      modifies this
      ensures Valid() && inAlloc == old(inAlloc)
      ensures !old(inAlloc) ==>
        Runs(old(View()), ReallocSteps(ptr, newSize, answer, sampled, ptr in old(pointerMap)), View())
      ensures old(inAlloc) && answer.Some? ==>
        Runs(old(View()), [Step(0, NestedRealloc(ptr, answer.value, newSize))], View())
      ensures answer.None? ==> View() == old(View())
      ensures answer.Some? ==>
        heap == (old(heap) - {ptr})[answer.value := newSize] && client == old(client) - {ptr} + {answer.value}
      ensures old(inAlloc) ==> pointerMap == old(pointerMap) && traceMap == old(traceMap)
      ensures !old(inAlloc) && answer.Some? ==>
        && pointerMap == (if sampled.None? then old(pointerMap) - {ptr}
                          else (old(pointerMap) - {ptr})[answer.value := Record(newSize, sampled.value)])
        && Booked(old(traceMap), traceMap, if sampled.None? then None else Some(Record(newSize, sampled.value)),
                  if ptr in old(pointerMap) then Some(old(pointerMap)[ptr]) else None)
    {
      hide Booked;
      ghost var s0 := View();
      var size := heap[ptr];
      if inAlloc {
        if answer.Some? {
          heap := (heap - {ptr})[answer.value := newSize];
          client := client - {ptr} + {answer.value};
          Runs1(s0, NestedRealloc(ptr, answer.value, newSize));
        }
        return;
      }
      client := client - {ptr};
      inAlloc := true;
      var rec := TakeAllocationRecord(ptr);
      if answer.Some? {
        heap := (heap - {ptr})[answer.value := newSize];
        var freed := FinishDeallocation(rec, size);
        assert Alone(AfterMove(s0, ptr, answer.value, newSize), Idle) == At(Idle);
        ghost var freedMap := traceMap;
        RecordTrackedAllocation(answer.value, newSize, sampled);
        if sampled.Some? {
          BothBooked(s0.traces, freedMap, traceMap, Some(Record(newSize, sampled.value)), rec);
        }
        ReallocRuns(s0, ptr, newSize, answer.value, sampled, ptr in s0.pointers);
      } else {
        if rec.Some? {
          RestoreAllocationRecord(ptr, rec.value);
        }
        client := client + {ptr};
        assert pointerMap == s0.pointers && client == s0.client;
        ReallocFailsRuns(s0, ptr, newSize, sampled);
      }
      inAlloc := false;
    }
  }
}
