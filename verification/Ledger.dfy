/** The allocation ledger of `PprofAlloc`: any number of threads run `alloc`, `dealloc` and
    `realloc`, each map operation and each call of the backing allocator being one step. */
module Ledger {
  import opened Wrappers

  type Addr = nat
  type ThreadId = nat
  /** A captured stack: its frame addresses. */
  type Trace = seq<nat>

  datatype Record = Record(size: nat, trace: Trace)
  datatype Totals = Totals(allocBytes: nat, freeBytes: nat, allocs: nat, frees: nat)
  datatype Metric = Bytes | Count

  const NO_TOTALS := Totals(0, 0, 0, 0)

  // ---------- the two shared maps and the operations on them ----------

  function TotalsOf(traces: map<Trace, Totals>, t: Trace): Totals {
    if t in traces then traces[t] else NO_TOTALS
  }

  function AddAllocation(traces: map<Trace, Totals>, r: Record): map<Trace, Totals> {
    var old' := TotalsOf(traces, r.trace);
    traces[r.trace := old'.(allocBytes := old'.allocBytes + r.size, allocs := old'.allocs + 1)]
  }

  function AddFree(traces: map<Trace, Totals>, rec: Option<Record>): map<Trace, Totals> {
    match rec
    case None => traces
    case Some(r) =>
      var old' := TotalsOf(traces, r.trace);
      traces[r.trace := old'.(freeBytes := old'.freeBytes + r.size, frees := old'.frees + 1)]
  }

  function Lookup(pointers: map<Addr, Record>, ptr: Addr): Option<Record> {
    if ptr in pointers then Some(pointers[ptr]) else None
  }

  // ---------- threads ----------

  /** Where a thread stands in the call it is executing. `Reporting` is client code that
      runs under the recursion guard, as `snapshot` and `generate_pprof` do. */
  datatype Pc =
    | Idle
    | Reporting
    | AllocObtain(size: nat)
    | Obtained(ptr: Addr, size: nat, guarded: bool)
    | RecordInsert(ptr: Addr, size: nat, trace: Trace)
    | RecordTotals(ptr: Addr, size: nat, trace: Trace)
    | FreeTake(ptr: Addr, size: nat)
    | FreeRelease(ptr: Addr, size: nat, rec: Option<Record>)
    | FreeFinish(size: nat, rec: Option<Record>)
    | ReallocTake(ptr: Addr, size: nat, newSize: nat)
    | ReallocBackend(ptr: Addr, size: nat, newSize: nat, rec: Option<Record>)
    | ReallocFinish(ptr: Addr, size: nat, oldSize: nat, rec: Option<Record>)
    | ReallocRestore(ptr: Addr, size: nat, rec: Option<Record>)

  /** True between `enter_alloc` setting and resetting the thread's `IN_ALLOC` flag. The
      sampling decision is taken outside the guard in `alloc` and inside it in `realloc`. */
  predicate Guarded(pc: Pc) {
    !pc.Idle? && !pc.AllocObtain? && (pc.Obtained? ==> pc.guarded)
  }

  /** `heap` maps each live block to its layout size; `client` holds the blocks the program
      may pass to `dealloc` or `realloc`. A block given to a call belongs to that call. */
  datatype State = State(
    heap: map<Addr, nat>,
    client: set<Addr>,
    pointers: map<Addr, Record>,
    traces: map<Trace, Totals>,
    threads: map<ThreadId, Pc>)

  const INITIAL := State(map[], {}, map[], map[], map[])

  function PcOf(s: State, i: ThreadId): Pc {
    if i in s.threads then s.threads[i] else Idle
  }

  /** One atomic step of a thread. Addresses chosen by the backend and captured traces are
      part of the event. */
  datatype Event =
    | CallAlloc(size: nat)
    | Obtain(ptr: Addr)
    | ObtainFails
    | NotSampled
    | Sampled(trace: Trace)
    | Insert
    | AddTotals
    | CallDealloc(ptr: Addr)
    | Take
    | Release
    | Finish
    | CallRealloc(ptr: Addr, newSize: nat)
    | Moves(ptr: Addr)
    | Fails
    | Restore
    | BeginReport
    | EndReport
    | NestedAlloc(ptr: Addr, size: nat)
    | NestedDealloc(ptr: Addr)
    | NestedRealloc(ptr: Addr, to: Addr, newSize: nat)

  /** The backend may hand out any address that is not live, in particular any freed one.
      With `exact`, blocks that have a record are not released under the recursion guard. */
  predicate Enabled(s: State, i: ThreadId, e: Event, exact: bool) {
    var pc := PcOf(s, i);
    match e
    case CallAlloc(_) => pc.Idle?
    case Obtain(ptr) => pc.AllocObtain? && ptr !in s.heap
    case ObtainFails => pc.AllocObtain?
    case NotSampled => pc.Obtained?
    case Sampled(_) => pc.Obtained?
    case Insert => pc.RecordInsert?
    case AddTotals => pc.RecordTotals?
    case CallDealloc(ptr) => pc.Idle? && ptr in s.client && ptr in s.heap
    case Take => pc.FreeTake? || pc.ReallocTake?
    case Release => pc.FreeRelease?
    case Finish => pc.FreeFinish? || pc.ReallocFinish?
    case CallRealloc(ptr, _) => pc.Idle? && ptr in s.client && ptr in s.heap
    case Moves(ptr) => pc.ReallocBackend? && (ptr == pc.ptr || ptr !in s.heap)
    case Fails => pc.ReallocBackend?
    case Restore => pc.ReallocRestore?
    case BeginReport => pc.Idle?
    case EndReport => pc.Reporting?
    case NestedAlloc(ptr, _) => Guarded(pc) && ptr !in s.heap
    case NestedDealloc(ptr) => Guarded(pc) && ptr in s.client && (exact ==> ptr !in s.pointers)
    case NestedRealloc(ptr, to, _) =>
      Guarded(pc) && ptr in s.client && (to == ptr || to !in s.heap) && (exact ==> ptr !in s.pointers)
  }

  function Goto(s: State, i: ThreadId, pc: Pc): State {
    s.(threads := s.threads[i := pc])
  }

  function Apply(s: State, i: ThreadId, e: Event, exact: bool): State
    requires Enabled(s, i, e, exact)
  {
    var pc := PcOf(s, i);
    match e
    case CallAlloc(size) => Goto(s, i, AllocObtain(size))
    case Obtain(ptr) => Goto(s.(heap := s.heap[ptr := pc.size]), i, Obtained(ptr, pc.size, false))
    case ObtainFails => Goto(s, i, Idle)
    case NotSampled => Goto(s.(client := s.client + {pc.ptr}), i, Idle)
    case Sampled(trace) => Goto(s, i, RecordInsert(pc.ptr, pc.size, trace))
    case Insert =>
      Goto(s.(pointers := s.pointers[pc.ptr := Record(pc.size, pc.trace)]), i, RecordTotals(pc.ptr, pc.size, pc.trace))
    case AddTotals =>
      Goto(s.(traces := AddAllocation(s.traces, Record(pc.size, pc.trace)), client := s.client + {pc.ptr}), i, Idle)
    case CallDealloc(ptr) => Goto(s.(client := s.client - {ptr}), i, FreeTake(ptr, s.heap[ptr]))
    case Take =>
      var rec := Lookup(s.pointers, pc.ptr);
      Goto(s.(pointers := s.pointers - {pc.ptr}), i,
           if pc.FreeTake? then FreeRelease(pc.ptr, pc.size, rec) else ReallocBackend(pc.ptr, pc.size, pc.newSize, rec))
    case Release => Goto(s.(heap := s.heap - {pc.ptr}), i, FreeFinish(pc.size, pc.rec))
    case Finish =>
      Goto(s.(traces := AddFree(s.traces, pc.rec)), i, if pc.FreeFinish? then Idle else Obtained(pc.ptr, pc.size, true))
    case CallRealloc(ptr, newSize) => Goto(s.(client := s.client - {ptr}), i, ReallocTake(ptr, s.heap[ptr], newSize))
    case Moves(ptr) =>
      Goto(s.(heap := (s.heap - {pc.ptr})[ptr := pc.newSize]), i, ReallocFinish(ptr, pc.newSize, pc.size, pc.rec))
    case Fails =>
      if pc.rec.None? then Goto(s.(client := s.client + {pc.ptr}), i, Idle)
      else Goto(s, i, ReallocRestore(pc.ptr, pc.size, pc.rec))
    case Restore =>
      Goto(s.(pointers := if pc.rec.Some? then s.pointers[pc.ptr := pc.rec.value] else s.pointers,
              client := s.client + {pc.ptr}), i, Idle)
    case BeginReport => Goto(s, i, Reporting)
    case EndReport => Goto(s, i, Idle)
    case NestedAlloc(ptr, size) => s.(heap := s.heap[ptr := size], client := s.client + {ptr})
    case NestedDealloc(ptr) => s.(heap := s.heap - {ptr}, client := s.client - {ptr})
    case NestedRealloc(ptr, to, newSize) =>
      s.(heap := (s.heap - {ptr})[to := newSize], client := s.client - {ptr} + {to})
  }

  datatype Step = Step(thread: ThreadId, event: Event)

  /** Every step of the schedule is enabled when its turn comes. */
  predicate Legal(s: State, steps: seq<Step>, exact: bool)
    decreases |steps|
  {
    steps == [] ||
    (Enabled(s, steps[0].thread, steps[0].event, exact) &&
     Legal(Apply(s, steps[0].thread, steps[0].event, exact), steps[1..], exact))
  }

  function Exec(s: State, steps: seq<Step>, exact: bool): State
    requires Legal(s, steps, exact)
    decreases |steps|
  {
    if steps == [] then s
    else Exec(Apply(s, steps[0].thread, steps[0].event, exact), steps[1..], exact)
  }
}
