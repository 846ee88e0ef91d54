/** Choosing the tracking mode and the backing allocator through racy, lazily filled caches. */
module Selection {
  import opened Wrappers
  import opened Env

  datatype TrackingMode = SystemMode | JemallocMode | MimallocMode | Stats | Pprof | PprofStats

  /** What is fixed for the life of the process: the builder's settings and the environment. */
  datatype Config = Config(
    env: Environment,
    features: Features,
    default_: AllocatorSelection,
    pprof: bool,
    stats: bool,
    rate: nat,
    rateFromEnv: bool)

  type ThreadId = nat
  type Addr = nat
  datatype Op = Alloc | Free(ptr: Addr) | Realloc(ptr: Addr)

  /** Where a thread stands in the call `op`. Each load and each store of a cache is a step. */
  datatype Pc =
    | Idle
    | LoadMode(op: Op)
    | LoadAllocator(op: Op, inner: bool)
    | StoreAllocator(op: Op, inner: bool, selected: AllocatorSelection)
    | LoadBackend(op: Op, selected: AllocatorSelection)
    | StoreBackend(op: Op, selected: AllocatorSelection, backend: PprofBackend)
    | LoadResolved(op: Op, selected: AllocatorSelection, backend: PprofBackend)
    | LoadEnvRate(op: Op, selected: AllocatorSelection, backend: PprofBackend)
    | StoreEnvRate(op: Op, selected: AllocatorSelection, backend: PprofBackend, cell: nat, rate: nat)
    | StoreResolved(op: Op, selected: AllocatorSelection, backend: PprofBackend, rate: nat)
    | StoreMode(op: Op, mode: TrackingMode)
    | Dispatch(op: Op, mode: TrackingMode)
    | Serve(op: Op, server: AllocatorSelection)

  /** `heap` maps every live block to the allocator that handed it out. */
  datatype State = State(
    allocator: Option<AllocatorSelection>,
    backend: Option<PprofBackend>,
    envRate: nat,
    resolved: nat,
    mode: Option<TrackingMode>,
    exited: bool,
    heap: map<Addr, AllocatorSelection>,
    threads: map<ThreadId, Pc>)

  const INITIAL := State(None, None, ENV_SAMPLE_RATE_UNINITIALIZED, USIZE_MAX, None, false, map[], map[])

  function PcOf(s: State, i: ThreadId): Pc {
    if i in s.threads then s.threads[i] else Idle
  }

  function Goto(s: State, i: ThreadId, pc: Pc): State {
    s.(threads := s.threads[i := pc])
  }

  predicate NativeJemalloc(c: Config, selected: AllocatorSelection) {
    c.features.jemalloc && selected.Jemalloc?
  }

  predicate WantsWrapperRate(c: Config, selected: AllocatorSelection, backend: PprofBackend) {
    c.pprof && !(NativeJemalloc(c, selected) && backend.Native?)
  }

  function ModeFor(c: Config, selected: AllocatorSelection, wrapperPprof: bool): TrackingMode {
    var wrapperStats := c.stats && !NativeJemalloc(c, selected);
    if wrapperPprof && wrapperStats then PprofStats
    else if wrapperPprof then Pprof
    else if wrapperStats then Stats
    else match selected case Jemalloc => JemallocMode case Mimalloc => MimallocMode case System => SystemMode
  }

  /** The allocator that a selection, or a mode that bypasses the wrapper, really uses. */
  function ServedBy(c: Config, selected: AllocatorSelection): AllocatorSelection {
    if (selected.Jemalloc? && c.features.jemalloc) || (selected.Mimalloc? && c.features.mimalloc) then selected
      else System
  }

  function FastPath(c: Config, mode: TrackingMode): Option<AllocatorSelection> {
    if mode.SystemMode? then Some(System)
    else if mode.JemallocMode? && c.features.jemalloc then Some(Jemalloc)
    else if mode.MimallocMode? && c.features.mimalloc then Some(Mimalloc)
    else None
  }

  /** After the selection is known: read the profiling backend if it matters, then the rate. */
  function AfterSelected(c: Config, op: Op, inner: bool, selected: AllocatorSelection): Pc {
    if inner then Serve(op, ServedBy(c, selected))
    else if NativeJemalloc(c, selected) then LoadBackend(op, selected)
    else AfterBackend(c, op, selected, Native)
  }

  function AfterBackend(c: Config, op: Op, selected: AllocatorSelection, backend: PprofBackend): Pc {
    if !WantsWrapperRate(c, selected, backend) then StoreMode(op, ModeFor(c, selected, false))
    else if c.rateFromEnv then LoadResolved(op, selected, backend)
    else StoreMode(op, ModeFor(c, selected, c.rate != 0))
  }

  datatype Event = Call(op: Op) | Advance | Answer(ptr: Option<Addr>)

  predicate Enabled(s: State, i: ThreadId, e: Event) {
    !s.exited &&
    match e
    case Call(op) => PcOf(s, i).Idle? && (op.Alloc? || op.ptr in s.heap)
    case Advance => !PcOf(s, i).Idle? && !PcOf(s, i).Serve?
    case Answer(ptr) => PcOf(s, i).Serve?
  }

  function Step1(c: Config, s: State, i: ThreadId): State
    requires Enabled(s, i, Advance)
  {
    var pc := PcOf(s, i);
    match pc
    case LoadMode(op) => Goto(s, i, if s.mode.Some? then Dispatch(op, s.mode.value) else LoadAllocator(op, false))
    case LoadAllocator(op, inner) =>
      if s.allocator.Some? then Goto(s, i, AfterSelected(c, op, inner, s.allocator.value))
      else
        var selected := Select(c.env, c.default_, c.features);
        if selected.None? then s.(exited := true) else Goto(s, i, StoreAllocator(op, inner, selected.value))
    case StoreAllocator(op, inner, selected) =>
      Goto(s.(allocator := Some(selected)), i, AfterSelected(c, op, inner, selected))
    case LoadBackend(op, selected) =>
      Goto(s, i, if s.backend.Some? then AfterBackend(c, op, selected, s.backend.value)
                 else StoreBackend(op, selected, SelectBackend(c.env)))
    case StoreBackend(op, selected, backend) =>
      Goto(s.(backend := Some(backend)), i, AfterBackend(c, op, selected, backend))
    case LoadResolved(op, selected, backend) =>
      Goto(s, i, if s.resolved != USIZE_MAX then StoreMode(op, ModeFor(c, selected, s.resolved != 0))
                 else LoadEnvRate(op, selected, backend))
    case LoadEnvRate(op, selected, backend) =>
      var rate := RateFrom(s.envRate, c.env, c.rate);
      Goto(s, i, if s.envRate != ENV_SAMPLE_RATE_UNINITIALIZED then StoreResolved(op, selected, backend, rate)
                 else StoreEnvRate(op, selected, backend, CellAfter(s.envRate, c.env), rate))
    case StoreEnvRate(op, selected, backend, cell, rate) =>
      Goto(s.(envRate := cell), i, StoreResolved(op, selected, backend, rate))
    case StoreResolved(op, selected, backend, rate) =>
      Goto(s.(resolved := rate), i, StoreMode(op, ModeFor(c, selected, rate != 0)))
    case StoreMode(op, mode) => Goto(s.(mode := Some(mode)), i, Dispatch(op, mode))
    case Dispatch(op, mode) =>
      Goto(s, i, if FastPath(c, mode).Some? then Serve(op, FastPath(c, mode).value) else LoadAllocator(op, true))
  }

  /** What the chosen allocator does to the live blocks. */
  function ServeOp(heap: map<Addr, AllocatorSelection>, op: Op, server: AllocatorSelection,
                   answer: Option<Addr>): map<Addr, AllocatorSelection>
  {
    match op
    case Alloc => if answer.Some? then heap[answer.value := server] else heap
    case Free(ptr) => heap - {ptr}
    case Realloc(ptr) => if answer.Some? then (heap - {ptr})[answer.value := server] else heap
  }

  function Apply(c: Config, s: State, i: ThreadId, e: Event): State
    requires Enabled(s, i, e)
  {
    match e
    case Call(op) => Goto(s, i, LoadMode(op))
    case Advance => Step1(c, s, i)
    case Answer(answer) =>
      var pc := PcOf(s, i);
      Goto(s.(heap := ServeOp(s.heap, pc.op, pc.server, answer)), i, Idle)
  }

  datatype Step = Step(thread: ThreadId, event: Event)

  predicate Legal(c: Config, s: State, steps: seq<Step>)
    decreases |steps|
  {
    steps == [] ||
    (Enabled(s, steps[0].thread, steps[0].event) && Legal(c, Apply(c, s, steps[0].thread, steps[0].event), steps[1..]))
  }

  function Exec(c: Config, s: State, steps: seq<Step>): State
    requires Legal(c, s, steps)
    decreases |steps|
  {
    if steps == [] then s else Exec(c, Apply(c, s, steps[0].thread, steps[0].event), steps[1..])
  }
}
