/** Agreement of the cached selections over every interleaving of racing first uses. */
module SelectionInvariant {
  import opened Wrappers
  import opened Env
  import opened Selection

  // ---------- the backing allocator ----------

  /** The single allocator that the environment and the shared default fix. */
  function Agreed(c: Config): Option<AllocatorSelection> {
    Select(c.env, c.default_, c.features)
  }

  predicate IsAgreed(c: Config, selected: AllocatorSelection) {
    Agreed(c) == Some(selected)
  }

  /** A mode that bypasses the wrapper names the agreed allocator. */
  predicate ModeServes(c: Config, mode: TrackingMode) {
    Agreed(c).Some? && (FastPath(c, mode).Some? ==> FastPath(c, mode).value == ServedBy(c, Agreed(c).value))
  }

  predicate PcAgrees(c: Config, pc: Pc) {
    match pc
    case StoreAllocator(_, _, selected) => IsAgreed(c, selected)
    case LoadBackend(_, selected) => IsAgreed(c, selected)
    case StoreBackend(_, selected, _) => IsAgreed(c, selected)
    case LoadResolved(_, selected, _) => IsAgreed(c, selected)
    case LoadEnvRate(_, selected, _) => IsAgreed(c, selected)
    case StoreEnvRate(_, selected, _, _, _) => IsAgreed(c, selected)
    case StoreResolved(_, selected, _, _) => IsAgreed(c, selected)
    case StoreMode(_, mode) => ModeServes(c, mode)
    case Dispatch(_, mode) => ModeServes(c, mode)
    case Serve(_, server) => Agreed(c).Some? && server == ServedBy(c, Agreed(c).value)
    case _ => true
  }

  ghost predicate AllocatorInv(c: Config, s: State) {
    && (s.allocator.Some? ==> IsAgreed(c, s.allocator.value))
    && (s.mode.Some? ==> ModeServes(c, s.mode.value))
    && (forall i :: PcAgrees(c, PcOf(s, i)))
    && (forall p :: p in s.heap ==> Agreed(c).Some? && s.heap[p] == ServedBy(c, Agreed(c).value))
  }

  lemma AfterSelectedServes(c: Config, op: Op, inner: bool, selected: AllocatorSelection)
    requires IsAgreed(c, selected)
    ensures PcAgrees(c, AfterSelected(c, op, inner, selected))
  {
  }

  lemma AfterBackendServes(c: Config, op: Op, selected: AllocatorSelection, backend: PprofBackend)
    requires IsAgreed(c, selected)
    ensures PcAgrees(c, AfterBackend(c, op, selected, backend))
  {
  }

  lemma ModeForServes(c: Config, selected: AllocatorSelection, wrapperPprof: bool)
    requires IsAgreed(c, selected)
    ensures ModeServes(c, ModeFor(c, selected, wrapperPprof))
  {
  }

  lemma AllocatorAdvance(c: Config, s: State, i: ThreadId)
    requires AllocatorInv(c, s) && Enabled(s, i, Advance)
    ensures var s' := Step1(c, s, i);
            && PcAgrees(c, PcOf(s', i))
            && (s'.allocator.Some? ==> IsAgreed(c, s'.allocator.value))
            && (s'.mode.Some? ==> ModeServes(c, s'.mode.value))
            && s'.heap == s.heap
  {
    var pc := PcOf(s, i);
    assert PcAgrees(c, pc);
    match pc
    case LoadAllocator(op, inner) => if s.allocator.Some? { AfterSelectedServes(c, op, inner, s.allocator.value); }
    case StoreAllocator(op, inner, selected) => AfterSelectedServes(c, op, inner, selected);
    case LoadBackend(op, selected) => if s.backend.Some? { AfterBackendServes(c, op, selected, s.backend.value); }
    case StoreBackend(op, selected, backend) => AfterBackendServes(c, op, selected, backend);
    case LoadResolved(_, selected, _) => ModeForServes(c, selected, s.resolved != 0);
    case StoreResolved(_, selected, _, rate) => ModeForServes(c, selected, rate != 0);
    case _ =>
  }

  lemma {:induction false} OthersUnmoved(c: Config, s: State, i: ThreadId, e: Event, j: ThreadId)
    requires Enabled(s, i, e) && i != j
    ensures PcOf(Apply(c, s, i, e), j) == PcOf(s, j)
  {
  }

  lemma {:induction false} AllocatorKept(c: Config, s: State, i: ThreadId, e: Event)
    requires AllocatorInv(c, s) && Enabled(s, i, e)
    ensures AllocatorInv(c, Apply(c, s, i, e))
  {
    var s' := Apply(c, s, i, e);
    assert PcAgrees(c, PcOf(s, i));
    if e.Advance? { AllocatorAdvance(c, s, i); }
    forall j ensures PcAgrees(c, PcOf(s', j)) {
      assert PcAgrees(c, PcOf(s, j));
      if j != i { OthersUnmoved(c, s, i, e, j); }
    }
  }

  lemma {:induction false} AllocatorOverRun(c: Config, s: State, steps: seq<Step>)
    requires AllocatorInv(c, s) && Legal(c, s, steps)
    ensures AllocatorInv(c, Exec(c, s, steps))
    decreases |steps|
  {
    if steps != [] {
      AllocatorKept(c, s, steps[0].thread, steps[0].event);
      AllocatorOverRun(c, Apply(c, s, steps[0].thread, steps[0].event), steps[1..]);
    }
  }

  /** The agreed allocator serves every call, on the fast path and on the inner path alike,
      however the first uses race. So every block is freed and reallocated by the allocator that
      handed it out; the cached selection is never anything but the agreed one; and when the
      agreed one is not compiled in, no block is ever handed out. */
  lemma {:induction false} SameAllocatorThroughout(c: Config, steps: seq<Step>, i: ThreadId)
    requires Legal(c, INITIAL, steps)
    ensures var s := Exec(c, INITIAL, steps);
            var pc := PcOf(s, i);
            && (pc.Serve? ==> Agreed(c) == Some(pc.server))
            && (pc.Serve? && !pc.op.Alloc? && pc.op.ptr in s.heap ==> s.heap[pc.op.ptr] == pc.server)
            && (forall p | p in s.heap :: Agreed(c) == Some(s.heap[p]))
            && (s.allocator.Some? ==> s.allocator == Agreed(c))
            && (Agreed(c).None? ==> s.heap == map[])
  {
    AllocatorOverRun(c, INITIAL, steps);
    assert PcAgrees(c, PcOf(Exec(c, INITIAL, steps), i));
  }

  // ---------- the tracking mode ----------

  predicate UsesEnvRate(c: Config) {
    Agreed(c).Some? && c.rateFromEnv && WantsWrapperRate(c, Agreed(c).value, SelectBackend(c.env))
  }

  /** Jemalloc profiles itself: it is compiled in and selected, and its own backend is chosen. */
  predicate JemallocProfiles(c: Config) {
    c.features.jemalloc && Agreed(c) == Some(Jemalloc) && SelectBackend(c.env) == Native
  }

  /** The rate in force: the one from the environment if that is asked for and readable. */
  function ResolvedRate(c: Config): nat {
    if c.rateFromEnv && ParseRate(c.env.sampleRate).Some? then ParseRate(c.env.sampleRate).value else c.rate
  }

  /** Calls are to record stacks: profiling is on, not left to jemalloc, and at a rate that
      samples. */
  predicate IsToRecord(c: Config) {
    c.pprof && !JemallocProfiles(c) && ResolvedRate(c) != 0
  }

  /** Calls are to be counted: statistics are on and jemalloc does not keep them itself. */
  predicate IsToCount(c: Config) {
    c.stats && !(c.features.jemalloc && Agreed(c) == Some(Jemalloc))
  }

  /** The mode makes calls record and count as they should; they bypass the wrapper, for the
      agreed allocator, exactly when there is neither to do. */
  predicate ModeMeans(c: Config, mode: TrackingMode) {
    && (mode == Pprof || mode == PprofStats <==> IsToRecord(c))
    && (mode == Stats || mode == PprofStats <==> IsToCount(c))
    && FastPath(c, mode) == if IsToRecord(c) || IsToCount(c) then None else Agreed(c)
  }

  /** The rate variable holds the cache's mark for an unset variable, while the default
      disables recording. */
  predicate ModeAtRisk(c: Config) {
    && Agreed(c).Some? && c.pprof && !JemallocProfiles(c)
    && c.rateFromEnv && c.rate == 0 && ParseRate(c.env.sampleRate) == Some(18446744073709551614)
  }

  /** What a lone first call resolves the rate to. */
  function RateOf(c: Config): nat {
    if c.rateFromEnv then RateFrom(ENV_SAMPLE_RATE_UNINITIALIZED, c.env, c.rate) else c.rate
  }

  function AgreedMode(c: Config): TrackingMode
    requires Agreed(c).Some?
  {
    ModeFor(c, Agreed(c).value, WantsWrapperRate(c, Agreed(c).value, SelectBackend(c.env)) && RateOf(c) != 0)
  }

  lemma AgreedModeMeans(c: Config)
    requires Agreed(c).Some?
    ensures ModeMeans(c, AgreedMode(c))
  {
  }

  /** There is only one such mode. */
  lemma ModeIsUnique(c: Config, m: TrackingMode, m': TrackingMode)
    requires Agreed(c).Some? && ModeMeans(c, m) && ModeMeans(c, m')
    ensures m == m'
  {
  }

  predicate SameVerdict(c: Config, rate: nat) {
    (rate != 0) == (RateOf(c) != 0)
  }

  predicate IsAgreedMode(c: Config, mode: TrackingMode) {
    Agreed(c).Some? && mode == AgreedMode(c)
  }

  predicate BackendAgrees(c: Config, selected: AllocatorSelection, backend: PprofBackend) {
    WantsWrapperRate(c, selected, backend) && WantsWrapperRate(c, selected, SelectBackend(c.env)) && c.rateFromEnv
  }

  predicate PcModeAgrees(c: Config, pc: Pc) {
    match pc
    case StoreBackend(_, _, backend) => backend == SelectBackend(c.env)
    case LoadResolved(_, selected, backend) => BackendAgrees(c, selected, backend)
    case LoadEnvRate(_, selected, backend) => BackendAgrees(c, selected, backend)
    case StoreEnvRate(_, selected, backend, cell, rate) =>
      BackendAgrees(c, selected, backend) && SameVerdict(c, rate) && SettledCell(c, cell)
    case StoreResolved(_, selected, backend, rate) => BackendAgrees(c, selected, backend) && SameVerdict(c, rate)
    case StoreMode(_, mode) => IsAgreedMode(c, mode)
    case Dispatch(_, mode) => IsAgreedMode(c, mode)
    case _ => true
  }

  predicate SettledCell(c: Config, cell: nat) {
    cell == ENV_SAMPLE_RATE_UNINITIALIZED || cell == CellAfter(ENV_SAMPLE_RATE_UNINITIALIZED, c.env)
  }

  ghost predicate ModeInv(c: Config, s: State) {
    && (s.backend.Some? ==> s.backend.value == SelectBackend(c.env))
    && SettledCell(c, s.envRate)
    && (s.resolved != USIZE_MAX && UsesEnvRate(c) ==> SameVerdict(c, s.resolved))
    && (s.mode.Some? ==> IsAgreedMode(c, s.mode.value))
    && (forall i :: PcModeAgrees(c, PcOf(s, i)))
  }

  lemma AfterBackendAgrees(c: Config, op: Op, selected: AllocatorSelection, backend: PprofBackend)
    requires IsAgreed(c, selected)
    requires NativeJemalloc(c, selected) ==> backend == SelectBackend(c.env)
    ensures PcModeAgrees(c, AfterBackend(c, op, selected, backend))
  {
  }

  lemma AfterSelectedAgrees(c: Config, op: Op, inner: bool, selected: AllocatorSelection)
    requires IsAgreed(c, selected)
    ensures PcModeAgrees(c, AfterSelected(c, op, inner, selected))
  {
    if !NativeJemalloc(c, selected) {
      AfterBackendAgrees(c, op, selected, Native);
    }
  }

  lemma VerdictFromCell(c: Config, cell: nat)
    requires !ModeAtRisk(c) && UsesEnvRate(c) && SettledCell(c, cell)
    ensures SameVerdict(c, RateFrom(cell, c.env, c.rate)) && SettledCell(c, CellAfter(cell, c.env))
  {
  }

  lemma {:induction false} RateStepAgrees(c: Config, s: State, i: ThreadId)
    requires AllocatorInv(c, s) && ModeInv(c, s) && !ModeAtRisk(c) && Enabled(s, i, Advance)
    requires var pc := PcOf(s, i); pc.LoadResolved? || pc.LoadEnvRate? || pc.StoreEnvRate? || pc.StoreResolved?
    ensures var s' := Step1(c, s, i);
            && PcModeAgrees(c, PcOf(s', i))
            && SettledCell(c, s'.envRate)
            && (s'.resolved != USIZE_MAX && UsesEnvRate(c) ==> SameVerdict(c, s'.resolved))
            && s'.mode == s.mode && s'.backend == s.backend
  {
    var pc := PcOf(s, i);
    assert PcAgrees(c, pc) && PcModeAgrees(c, pc);
    assert UsesEnvRate(c);
    VerdictFromCell(c, s.envRate);
  }

  lemma ChoiceStepAgrees(c: Config, s: State, i: ThreadId)
    requires AllocatorInv(c, s) && ModeInv(c, s) && Enabled(s, i, Advance)
    requires var pc := PcOf(s, i); !(pc.LoadResolved? || pc.LoadEnvRate? || pc.StoreEnvRate? || pc.StoreResolved?)
    ensures var s' := Step1(c, s, i);
            && PcModeAgrees(c, PcOf(s', i))
            && s'.envRate == s.envRate && s'.resolved == s.resolved
            && (s'.backend.Some? ==> s'.backend.value == SelectBackend(c.env))
            && (s'.mode.Some? ==> IsAgreedMode(c, s'.mode.value))
  {
    var pc := PcOf(s, i);
    assert PcAgrees(c, pc) && PcModeAgrees(c, pc);
    match pc
    case LoadAllocator(op, inner) => if s.allocator.Some? { AfterSelectedAgrees(c, op, inner, s.allocator.value); }
    case StoreAllocator(op, inner, selected) => AfterSelectedAgrees(c, op, inner, selected);
    case LoadBackend(op, selected) => if s.backend.Some? { AfterBackendAgrees(c, op, selected, s.backend.value); }
    case StoreBackend(op, selected, backend) => AfterBackendAgrees(c, op, selected, backend);
    case _ =>
  }

  lemma ModeKept(c: Config, s: State, i: ThreadId, e: Event)
    requires AllocatorInv(c, s) && ModeInv(c, s) && !ModeAtRisk(c) && Enabled(s, i, e)
    ensures ModeInv(c, Apply(c, s, i, e))
  {
    var s' := Apply(c, s, i, e);
    if e.Advance? {
      var pc := PcOf(s, i);
      if pc.LoadResolved? || pc.LoadEnvRate? || pc.StoreEnvRate? || pc.StoreResolved? {
        RateStepAgrees(c, s, i);
      } else {
        ChoiceStepAgrees(c, s, i);
      }
    }
    forall j ensures PcModeAgrees(c, PcOf(s', j)) {
      assert PcModeAgrees(c, PcOf(s, j));
      if j != i { OthersUnmoved(c, s, i, e, j); }
    }
  }

  lemma {:induction false} ModeOverRun(c: Config, s: State, steps: seq<Step>)
    requires AllocatorInv(c, s) && ModeInv(c, s) && !ModeAtRisk(c) && Legal(c, s, steps)
    ensures ModeInv(c, Exec(c, s, steps))
    decreases |steps|
  {
    if steps != [] {
      AllocatorKept(c, s, steps[0].thread, steps[0].event);
      ModeKept(c, s, steps[0].thread, steps[0].event);
      ModeOverRun(c, Apply(c, s, steps[0].thread, steps[0].event), steps[1..]);
    }
  }

  // ---------- when the mode is at risk ----------

  lemma {:induction false} ExecAppend(c: Config, s: State, steps: seq<Step>, i: ThreadId, e: Event)
    requires Legal(c, s, steps) && Enabled(Exec(c, s, steps), i, e)
    ensures Legal(c, s, steps + [Step(i, e)])
    ensures Exec(c, s, steps + [Step(i, e)]) == Apply(c, Exec(c, s, steps), i, e)
    decreases |steps|
  {
    var longer := steps + [Step(i, e)];
    if steps == [] {
      assert longer[1..] == [];
    } else {
      assert longer[1..] == steps[1..] + [Step(i, e)];
      ExecAppend(c, Apply(c, s, steps[0].thread, steps[0].event), steps[1..], i, e);
    }
  }

  lemma Extend(c: Config, run: seq<Step>, i: ThreadId, e: Event) returns (run': seq<Step>)
    requires Legal(c, INITIAL, run) && Enabled(Exec(c, INITIAL, run), i, e)
    ensures Legal(c, INITIAL, run') && run <= run'
    ensures Exec(c, INITIAL, run') == Apply(c, Exec(c, INITIAL, run), i, e)
    ensures forall j | j != i :: PcOf(Exec(c, INITIAL, run'), j) == PcOf(Exec(c, INITIAL, run), j)
  {
    run' := run + [Step(i, e)];
    ExecAppend(c, INITIAL, run, i, e);
    forall j | j != i ensures PcOf(Exec(c, INITIAL, run'), j) == PcOf(Exec(c, INITIAL, run), j) {
      OthersUnmoved(c, Exec(c, INITIAL, run), i, e, j);
    }
  }

  /** The thread has learnt the agreed selections and is about to resolve the rate. */
  predicate AtRate(c: Config, s: State, i: ThreadId) {
    && !s.exited && s.mode.None? && s.allocator == Agreed(c)
    && (s.backend.Some? ==> s.backend.value == SelectBackend(c.env))
    && PcOf(s, i).LoadResolved? && Agreed(c).Some? && PcOf(s, i).selected == Agreed(c).value
  }

  /** A new call gets as far as resolving the rate, disturbing nothing else. */
  lemma {:induction false} ReachRate(c: Config, run: seq<Step>, i: ThreadId) returns (run': seq<Step>)
    requires UsesEnvRate(c) && Legal(c, INITIAL, run)
    requires var s := Exec(c, INITIAL, run);
             !s.exited && s.mode.None? && PcOf(s, i).Idle?
             && (s.allocator.Some? ==> s.allocator == Agreed(c))
             && (s.backend.Some? ==> s.backend.value == SelectBackend(c.env))
    ensures Legal(c, INITIAL, run') && run <= run'
    ensures var s, s' := Exec(c, INITIAL, run), Exec(c, INITIAL, run');
            AtRate(c, s', i) && s'.envRate == s.envRate && s'.resolved == s.resolved
            && forall j | j != i :: PcOf(s', j) == PcOf(s, j)
  {
    run' := Extend(c, run, i, Call(Alloc));
    run' := Extend(c, run', i, Advance);
    run' := ReachSelected(c, run', i);
    if PcOf(Exec(c, INITIAL, run'), i).LoadBackend? {
      run' := Extend(c, run', i, Advance);
      if PcOf(Exec(c, INITIAL, run'), i).StoreBackend? {
        run' := Extend(c, run', i, Advance);
      }
    }
  }

  lemma ReachSelected(c: Config, run: seq<Step>, i: ThreadId) returns (run': seq<Step>)
    requires UsesEnvRate(c) && Legal(c, INITIAL, run)
    requires var s := Exec(c, INITIAL, run);
             !s.exited && PcOf(s, i) == LoadAllocator(Alloc, false)
             && (s.allocator.Some? ==> s.allocator == Agreed(c))
    ensures Legal(c, INITIAL, run') && run <= run'
    ensures var s, s' := Exec(c, INITIAL, run), Exec(c, INITIAL, run');
            s' == s.(allocator := Agreed(c), threads := s'.threads)
            && PcOf(s', i) == AfterSelected(c, Alloc, false, Agreed(c).value)
            && forall j | j != i :: PcOf(s', j) == PcOf(s, j)
  {
    run' := Extend(c, run, i, Advance);
    if PcOf(Exec(c, INITIAL, run'), i).StoreAllocator? {
      run' := Extend(c, run', i, Advance);
    }
  }

  /** Thread 0 resolves the marked rate and publishes it in the shared cache only. */
  lemma {:induction false} EarlyCall(c: Config) returns (run: seq<Step>)
    requires ModeAtRisk(c)
    ensures Legal(c, INITIAL, run)
    ensures var s := Exec(c, INITIAL, run);
            && s.mode.None? && !s.exited && s.resolved == USIZE_MAX && s.envRate == ENV_SAMPLE_RATE_UNSET
            && s.allocator == Agreed(c) && (s.backend.Some? ==> s.backend.value == SelectBackend(c.env))
            && PcOf(s, 0).StoreResolved? && PcOf(s, 0).rate == ENV_SAMPLE_RATE_UNSET
            && PcOf(s, 0).selected == Agreed(c).value && PcOf(s, 1).Idle?
  {
    run := ReachRate(c, [], 0);
    run := Extend(c, run, 0, Advance);
    run := Extend(c, run, 0, Advance);
    run := Extend(c, run, 0, Advance);
  }

  /** With the mark in the variable and recording disabled by default, one racing call
      publishes a mode without recording and the other a mode with it. */
  lemma {:induction false} ModesCanDiffer(c: Config) returns (first: seq<Step>, second: seq<Step>)
    requires ModeAtRisk(c)
    ensures Legal(c, INITIAL, first) && Legal(c, INITIAL, second) && first <= second
    ensures var mode := Exec(c, INITIAL, first).mode; mode.Some? && mode.value != Pprof && mode.value != PprofStats
    ensures var mode := Exec(c, INITIAL, second).mode; mode == Some(Pprof) || mode == Some(PprofStats)
  {
    var early := EarlyCall(c);
    var late := ReachRate(c, early, 1);
    first := LateCall(c, late, 1, 0);
    second := Extend(c, first, 0, Advance);
    second := Extend(c, second, 0, Advance);
  }

  lemma {:induction false} LateCall(c: Config, run: seq<Step>, i: ThreadId, other: ThreadId) returns (run': seq<Step>)
    requires ModeAtRisk(c) && Legal(c, INITIAL, run) && i != other
    requires var s := Exec(c, INITIAL, run);
             AtRate(c, s, i) && s.resolved == USIZE_MAX && s.envRate == ENV_SAMPLE_RATE_UNSET
    ensures Legal(c, INITIAL, run') && run <= run'
    ensures var s, s' := Exec(c, INITIAL, run), Exec(c, INITIAL, run');
            s'.mode == Some(ModeFor(c, Agreed(c).value, false)) && !s'.exited && PcOf(s', other) == PcOf(s, other)
  {
    run' := Extend(c, run, i, Advance);
    run' := Extend(c, run', i, Advance);
    run' := Extend(c, run', i, Advance);
    run' := Extend(c, run', i, Advance);
  }

  /** A configuration at risk: system allocator, recording off by default, and the rate variable
      holding the mark. */
  function RiskyConfig(): Config {
    Config(SentinelEnvironment(), Features(false, false), System, true, false, 0, true)
  }

  lemma RiskyConfigIsAtRisk()
    ensures ModeAtRisk(RiskyConfig()) && ProperEnvironment(RiskyConfig().env)
  {
    SentinelIsConfusable(0);
  }

  /** The modes that are published or acted under in a state. */
  ghost predicate InUse(s: State, mode: TrackingMode) {
    s.mode == Some(mode) || exists i, op :: PcOf(s, i) == Dispatch(op, mode)
  }

  /** In all runs calls record, count and bypass the wrapper as they should, if and only if the
      configuration is not at risk. */
  lemma {:induction false} ModeAgreement(c: Config)
    ensures (forall steps, mode | Legal(c, INITIAL, steps) && InUse(Exec(c, INITIAL, steps), mode) ::
             ModeMeans(c, mode))
       <==> !ModeAtRisk(c)
  {
    if !ModeAtRisk(c) {
      forall steps, mode | Legal(c, INITIAL, steps) && InUse(Exec(c, INITIAL, steps), mode) ensures ModeMeans(c, mode) {
        ModeOverRun(c, INITIAL, steps);
        ModeInUse(c, Exec(c, INITIAL, steps), mode);
      }
    } else {
      var first, second := ModesCanDiffer(c);
      var silent, recording := Exec(c, INITIAL, first).mode.value, Exec(c, INITIAL, second).mode.value;
      assert InUse(Exec(c, INITIAL, first), silent) && InUse(Exec(c, INITIAL, second), recording);
      assert !(ModeMeans(c, silent) && ModeMeans(c, recording));
    }
  }

  lemma ModeInUse(c: Config, s: State, mode: TrackingMode)
    requires ModeInv(c, s) && InUse(s, mode)
    ensures ModeMeans(c, mode)
  {
    if s.mode != Some(mode) {
      var i, op :| PcOf(s, i) == Dispatch(op, mode);
      assert PcModeAgrees(c, PcOf(s, i));
    }
    AgreedModeMeans(c);
  }
}
