/** The allocation sampler: an exponential byte countdown per thread, and its random source. */
module Sampler {
  const I32_MAX := 0x7FFF_FFFF
  const I64_MAX := 0x7FFF_FFFF_FFFF_FFFF
  const I64_MIN := -0x8000_0000_0000_0000
  const USIZE_MAX := 0xFFFF_FFFF_FFFF_FFFF
  const MAX_FAST_EXP_RAND_MEAN := 0x700_0000
  const RANDOM_RANGE := 0x400_0000
  /** `std::f64::consts::LN_2`, to the digits of the source constant. */
  const LN_2: real := 0.693147180559945309

  // ---------- the countdown ----------

  /** The cells `NEXT_SAMPLE` and `NEXT_SAMPLE_RATE`. */
  datatype Cells = Cells(next: int, rate: nat)
  const UNUSED := Cells(I64_MIN, USIZE_MAX)

  function Clamp64(x: int): int {
    if x < I64_MIN then I64_MIN else if x > I64_MAX then I64_MAX else x
  }

  /** One sampling decision. `first` is the distance drawn when the rate has changed and
      `second` the one drawn after a sample. */
  function Decide(c: Cells, size: nat, rate: nat, first: int, second: int): (Cells, bool) {
    if size == 0 || rate == 0 then (c, false)
    else if rate == 1 then (c, true)
    else
      var current := if c.rate != rate then first else c.next;
      var next := Clamp64(current - (if size <= I64_MAX then size else I64_MAX));
      if next < 0 then (Cells(second, rate), true) else (Cells(next, rate), false)
  }

  /** Nothing is sampled at rate zero and everything but empty blocks at rate one. Otherwise a
      block is sampled iff it is larger than what is left of the distance, which is the one drawn
      first if the rate has changed; a sample brings a new distance and anything else uses it up. */
  lemma DecideMeans(c: Cells, size: nat, rate: nat, first: int, second: int)
    ensures var (after, sampled) := Decide(c, size, rate, first, second);
            && (size == 0 || rate == 0 ==> !sampled && after == c)
            && (size > 0 && rate == 1 ==> sampled && after == c)
            && (size > 0 && rate >= 2 ==>
                  var left := if c.rate != rate then first else c.next;
                  var used := if size <= 9223372036854775807 then size else 9223372036854775807;
                  && (sampled <==> left < used)
                  && after.rate == rate && (sampled ==> after.next == second)
                  && (!sampled && left <= 9223372036854775807 ==> after.next == left - used))
  {
  }

  /** The distances a thread will draw, in order. */
  ghost predicate Draws(draw: nat -> int) {
    forall k :: 1 <= draw(k) <= I32_MAX
  }

  datatype Outcome = Outcome(cells: Cells, drawn: nat, taken: seq<bool>)

  /** One more allocation. */
  function Advance(o: Outcome, size: nat, rate: nat, draw: nat -> int): Outcome {
    var begun := if size != 0 && o.cells.rate != rate then o.drawn + 1 else o.drawn;
    var (cells, sampled) := Decide(o.cells, size, rate, draw(o.drawn), draw(begun));
    Outcome(cells, if sampled then begun + 1 else begun, o.taken + [sampled])
  }

  /** A thread's decisions on a sequence of allocation sizes, by the countdown. */
  function Countdown(sizes: seq<nat>, rate: nat, draw: nat -> int): Outcome {
    if sizes == [] then Outcome(UNUSED, 0, [])
    else Advance(Countdown(sizes[..|sizes| - 1], rate, draw), sizes[|sizes| - 1], rate, draw)
  }

  // ---------- the batch specification ----------

  function Samples(taken: seq<bool>): nat {
    if taken == [] then 0 else Samples(taken[..|taken| - 1]) + if taken[|taken| - 1] then 1 else 0
  }

  function Total(sizes: seq<nat>): nat {
    if sizes == [] then 0 else Total(sizes[..|sizes| - 1]) + sizes[|sizes| - 1]
  }

  /** Bytes allocated since the last sample. */
  function Since(sizes: seq<nat>, taken: seq<bool>): nat
    requires |sizes| == |taken|
  {
    if sizes == [] || taken[|taken| - 1] then 0
    else Since(sizes[..|sizes| - 1], taken[..|taken| - 1]) + sizes[|sizes| - 1]
  }

  /** The bytes since the last sample, with one more allocation, exceed the distance drawn at
      that sample. */
  predicate Exceeds(sizes: seq<nat>, taken: seq<bool>, size: nat, draw: nat -> int)
    requires |sizes| == |taken|
  {
    Since(sizes, taken) + size > draw(Samples(taken))
  }

  /** An allocation is sampled iff it takes the bytes since the last sample past the distance. */
  ghost predicate Cut(sizes: seq<nat>, taken: seq<bool>, draw: nat -> int) {
    |taken| == |sizes| &&
    forall i | 0 <= i < |sizes| ::
      taken[i] <==> Exceeds(sizes[..i], taken[..i], sizes[i], draw)
  }

  lemma CutExtends(sizes: seq<nat>, taken: seq<bool>, draw: nat -> int)
    requires |sizes| == |taken| > 0
    ensures var n := |sizes| - 1;
            Cut(sizes, taken, draw) <==>
              Cut(sizes[..n], taken[..n], draw)
              && (taken[n] <==> Exceeds(sizes[..n], taken[..n], sizes[n], draw))
  {
    var n := |sizes| - 1;
    forall i | 0 <= i <= n ensures sizes[..n][..i] == sizes[..i] && taken[..n][..i] == taken[..i] {}
  }

  /** The counter is the current distance less the bytes since the last sample; before the
      first non-empty allocation nothing has been drawn. */
  ghost predicate CellsMatch(o: Outcome, since: nat, total: nat, samples: nat, rate: nat, draw: nat -> int) {
    && since <= draw(samples) <= I32_MAX
    && since <= total
    && if o.drawn == 0 then o.cells == UNUSED && total == 0 && samples == 0
       else o.cells == Cells(draw(samples) - since, rate) && o.drawn == samples + 1
  }

  lemma {:induction false} AdvanceKeepsMatch(o: Outcome, since: nat, total: nat, samples: nat, size: nat, rate: nat,
                                             draw: nat -> int)
    requires rate >= 2 && rate != USIZE_MAX && Draws(draw) && CellsMatch(o, since, total, samples, rate, draw)
    ensures var o' := Advance(o, size, rate, draw);
            var sampled := since + size > draw(samples);
            && o'.taken == o.taken + [sampled]
            && CellsMatch(o', if sampled then 0 else since + size, total + size,
                          if sampled then samples + 1 else samples, rate, draw)
  {
    assert draw(0) <= I32_MAX && draw(samples + 1) <= I32_MAX && draw(samples + 1) >= 1;
  }

  ghost predicate Matches(o: Outcome, sizes: seq<nat>, rate: nat, draw: nat -> int) {
    && |o.taken| == |sizes|
    && CellsMatch(o, Since(sizes, o.taken), Total(sizes), Samples(o.taken), rate, draw)
  }

  ghost predicate OutcomeMatches(sizes: seq<nat>, rate: nat, draw: nat -> int) {
    Matches(Countdown(sizes, rate, draw), sizes, rate, draw)
  }

  lemma {:induction false} CountdownCells(sizes: seq<nat>, rate: nat, draw: nat -> int)
    requires rate >= 2 && rate != USIZE_MAX && Draws(draw)
    ensures OutcomeMatches(sizes, rate, draw)
  {
    if sizes == [] {
      assert 1 <= draw(0) <= I32_MAX;
    } else {
      CountdownCells(sizes[..|sizes| - 1], rate, draw);
      LastDecision(sizes, rate, draw);
    }
  }

  lemma {:induction false} AppendDecision(sizes: seq<nat>, taken: seq<bool>, sampled: bool)
    requires |sizes| == |taken| + 1
    ensures var n := |taken|;
            && (taken + [sampled])[..n] == taken
            && Since(sizes, taken + [sampled]) == (if sampled then 0 else Since(sizes[..n], taken) + sizes[n])
            && Total(sizes) == Total(sizes[..n]) + sizes[n]
            && Samples(taken + [sampled]) == Samples(taken) + (if sampled then 1 else 0)
  {
    assert (taken + [sampled])[..|taken|] == taken;
  }

  lemma {:induction false} OneMoreMatches(o: Outcome, o': Outcome, sizes: seq<nat>, sampled: bool, rate: nat,
                                          draw: nat -> int)
    requires |sizes| == |o.taken| + 1 && o'.taken == o.taken + [sampled]
    requires var n := |o.taken|;
             var since := Since(sizes[..n], o.taken);
             CellsMatch(o', if sampled then 0 else since + sizes[n], Total(sizes[..n]) + sizes[n],
                        if sampled then Samples(o.taken) + 1 else Samples(o.taken), rate, draw)
    ensures Matches(o', sizes, rate, draw)
  {
    AppendDecision(sizes, o.taken, sampled);
  }

  lemma {:induction false} AdvanceMatches(o: Outcome, sizes: seq<nat>, rate: nat, draw: nat -> int)
    requires sizes != [] && rate >= 2 && rate != USIZE_MAX && Draws(draw)
             && Matches(o, sizes[..|sizes| - 1], rate, draw)
    ensures var n := |sizes| - 1;
            var o' := Advance(o, sizes[n], rate, draw);
            && o'.taken == o.taken + [Exceeds(sizes[..n], o.taken, sizes[n], draw)]
            && Matches(o', sizes, rate, draw)
  {
    var n := |sizes| - 1;
    var before := sizes[..n];
    AdvanceKeepsMatch(o, Since(before, o.taken), Total(before), Samples(o.taken), sizes[n], rate, draw);
    OneMoreMatches(o, Advance(o, sizes[n], rate, draw), sizes, Exceeds(before, o.taken, sizes[n], draw), rate, draw);
  }

  lemma {:induction false} LastDecision(sizes: seq<nat>, rate: nat, draw: nat -> int)
    requires sizes != [] && rate >= 2 && rate != USIZE_MAX && Draws(draw)
    requires OutcomeMatches(sizes[..|sizes| - 1], rate, draw)
    ensures var n := |sizes| - 1;
            var before := Countdown(sizes[..n], rate, draw).taken;
            Countdown(sizes, rate, draw).taken == before + [Exceeds(sizes[..n], before, sizes[n], draw)]
    ensures OutcomeMatches(sizes, rate, draw)
  {
    AdvanceMatches(Countdown(sizes[..|sizes| - 1], rate, draw), sizes, rate, draw);
  }

  /** The countdown computes the batch cut, for any sizes and draws; its counter never goes
      below zero and is always what is left of the current distance. */
  lemma {:induction false} CountdownIsCut(sizes: seq<nat>, rate: nat, draw: nat -> int)
    requires rate >= 2 && rate != USIZE_MAX && Draws(draw)
    ensures Cut(sizes, Countdown(sizes, rate, draw).taken, draw)
    ensures var o := Countdown(sizes, rate, draw);
            o.drawn > 0 ==> 0 <= o.cells.next == draw(Samples(o.taken)) - Since(sizes, o.taken)
  {
    CountdownCells(sizes, rate, draw);
    if sizes != [] {
      CountdownCells(sizes[..|sizes| - 1], rate, draw);
      CountdownIsCut(sizes[..|sizes| - 1], rate, draw);
      LastDecision(sizes, rate, draw);
      CutExtends(sizes, Countdown(sizes, rate, draw).taken, draw);
    }
  }

  /** The rate that marks the unused cells is the one exception: at that rate nothing is drawn for
      the first block, which is sampled however small it is. */
  lemma {:induction false} CutExactly(rate: nat)
    requires rate >= 2
    ensures (forall sizes: seq<nat>, draw: nat -> int | Draws(draw) ::
               Cut(sizes, Countdown(sizes, rate, draw).taken, draw))
       <==> rate != 18446744073709551615
  {
    if rate == 18446744073709551615 {
      var sizes, draw := [1], (k: nat) => 5;
      assert Draws(draw) && sizes[..0] == [];
      assert Countdown(sizes, rate, draw).taken == [true];
      assert !Exceeds(sizes[..0], [true][..0], sizes[0], draw);
      assert !Cut(sizes, Countdown(sizes, rate, draw).taken, draw);
    } else {
      forall sizes: seq<nat>, draw: nat -> int | Draws(draw)
        ensures Cut(sizes, Countdown(sizes, rate, draw).taken, draw)
      {
        CountdownIsCut(sizes, rate, draw);
      }
    }
  }

  lemma {:induction false} CutsAgree(sizes: seq<nat>, a: seq<bool>, b: seq<bool>, draw: nat -> int, n: nat)
    requires Cut(sizes, a, draw) && Cut(sizes, b, draw) && n <= |sizes|
    ensures |a| == |b| == |sizes| && a[..n] == b[..n]
  {
    hide Exceeds;
    if n > 0 {
      CutsAgree(sizes, a, b, draw, n - 1);
      assert a[n - 1] <==> Exceeds(sizes[..n - 1], a[..n - 1], sizes[n - 1], draw);
      assert a[..n] == a[..n - 1] + [a[n - 1]] && b[..n] == b[..n - 1] + [b[n - 1]];
    }
  }

  /** The cut determines the decisions. */
  lemma {:induction false} CutIsUnique(sizes: seq<nat>, a: seq<bool>, b: seq<bool>, draw: nat -> int)
    requires Cut(sizes, a, draw) && Cut(sizes, b, draw)
    ensures a == b
  {
    CutsAgree(sizes, a, b, draw, |sizes|);
    assert a == a[..|sizes|] && b == b[..|sizes|];
  }

  function SumOfDraws(draw: nat -> int, k: nat): int {
    if k == 0 then 0 else SumOfDraws(draw, k - 1) + draw(k - 1)
  }

  /** By the k-th sample more bytes have been allocated than the first k distances add up to. */
  lemma {:induction false} SamplesPayForDraws(sizes: seq<nat>, taken: seq<bool>, draw: nat -> int)
    requires Cut(sizes, taken, draw)
    ensures SumOfDraws(draw, Samples(taken)) + Samples(taken) + Since(sizes, taken) <= Total(sizes)
  {
    if sizes != [] {
      var n := |sizes| - 1;
      CutExtends(sizes, taken, draw);
      SamplesPayForDraws(sizes[..n], taken[..n], draw);
    }
  }

  // ---------- the random source ----------

  function Shift12(x: bv64): bv64 { x ^ (x >> 12) }
  function Shift25(x: bv64): bv64 { x ^ (x << 25) }
  function Shift27(x: bv64): bv64 { x ^ (x >> 27) }

  function XorShift(x: bv64): bv64 {
    Shift27(Shift25(Shift12(x)))
  }

  lemma OnlyZeroShiftsToZero(x: bv64)
    ensures Shift12(x) == 0 <==> x == 0
    ensures Shift25(x) == 0 <==> x == 0
    ensures Shift27(x) == 0 <==> x == 0
  {
  }

  /** Known answers of the generator. */
  lemma XorShiftVectors()
    ensures XorShift(1) == 0x2000001
    ensures XorShift(0x8000_0000_0000_0001) == 0x8008001003000001
    ensures XorShift(0x1234_5678_9abc_def0) == 0x69cf1fdabed68fcd
  {
  }

  lemma XorShiftStaysNonZero(x: bv64)
    ensures XorShift(x) == 0 <==> x == 0
  {
    OnlyZeroShiftsToZero(x);
    OnlyZeroShiftsToZero(Shift12(x));
    OnlyZeroShiftsToZero(Shift25(Shift12(x)));
  }

  /** The state after `n` draws from a freshly seeded generator. */
  function StateAfter(seed: bv64, n: nat): bv64 {
    if n == 0 then seed else XorShift(StateAfter(seed, n - 1))
  }

  /** Over any run the state never returns to zero, the mark of an unseeded generator, so
      the seed is used once. */
  lemma {:induction false} NeverReseeds(seed: bv64, n: nat)
    requires seed != 0
    ensures StateAfter(seed, n) != 0
  {
    if n != 0 {
      NeverReseeds(seed, n - 1);
      XorShiftStaysNonZero(StateAfter(seed, n - 1));
    }
  }

  /** The wrapping product that is returned for a state. */
  function Output(x: bv64): (r: nat)
    ensures r == (x as nat * 2685821657736338717) % 18446744073709551616
  {
    (x as nat * 0x2545_f491_4f6c_dd1d) % 0x1_0000_0000_0000_0000
  }

  function Seed(stackAddr: bv64, time: bv64): (seed: bv64)
    ensures seed != 0
  {
    var seed := stackAddr ^ time ^ 0x9e37_79b9_7f4a_7c15;
    if seed == 0 then 0x9e37_79b9_7f4a_7c15 else seed
  }

  /** Known answers of the seed: both its parts count, and a seed of zero is replaced. */
  lemma SeedVectors()
    ensures Seed(0, 0) == 0x9e37_79b9_7f4a_7c15
    ensures Seed(0xffff_0000_ffff_0000, 0) == 0x61c8_79b9_80b5_7c15
    ensures Seed(0, 0xffff_0000_ffff_0000) == 0x61c8_79b9_80b5_7c15
    ensures Seed(0x9e37_79b9_7f4a_0000, 0x7c15) == 0x9e37_79b9_7f4a_7c15
  {
  }

  // ---------- the distance ----------

  /** Base-two logarithm, as far as the distance needs it. */
  ghost predicate IsLog2(log2: int -> real) {
    log2(1) == 0.0 && log2(RANDOM_RANGE) == 26.0 &&
    forall p, q | 1 <= p <= q :: log2(p) <= log2(q)
  }

  /** The saturating cast of a non-negative float to `i32`. */
  function ToI32(x: real): int
    requires x >= 0.0
  {
    if x.Floor > I32_MAX then I32_MAX else x.Floor
  }

  function Min(a: nat, b: nat): nat {
    if a <= b then a else b
  }

  /** The exponent that is scaled by the mean: minus the natural logarithm of q / 2^26. */
  function Exponent(log2: int -> real, q: int): real {
    var qlog := log2(q) - 26.0;
    -(if qlog < 0.0 then qlog else 0.0) * LN_2
  }

  lemma DistanceBounded(log2: int -> real, q: int, mean: nat)
    requires IsLog2(log2) && 1 <= q <= RANDOM_RANGE && mean <= MAX_FAST_EXP_RAND_MEAN
    ensures 0.0 <= Exponent(log2, q) * mean as real < (I32_MAX - 1) as real
  {
    assert 0.0 == log2(1) <= log2(q) <= log2(RANDOM_RANGE) == 26.0;
    var e := Exponent(log2, q);
    assert 0.0 <= e <= 26.0 * LN_2 < 18.0219;
    ScaleBounds(e, 18.0219, mean as real, MAX_FAST_EXP_RAND_MEAN as real);
  }

  lemma ScaleBounds(e: real, bound: real, m: real, top: real)
    requires 0.0 <= e <= bound && 0.0 <= m <= top
    ensures 0.0 <= e * m <= bound * top
  {
  }

  /** What a generator in state `x` starts its next step from. */
  function StartState(x: bv64, seed: bv64): bv64 {
    if x == 0 then seed else x
  }

  /** The distance drawn with a new generator state: minus the natural logarithm of a uniform
      26-bit fraction, scaled by the mean and rounded up. */
  ghost predicate IsDraw(distance: int, log2: int -> real, state: bv64, mean: nat) {
    var q := Output(state) % 0x400_0000 + 1;
    var capped := if mean <= 0x700_0000 then mean else 0x700_0000;
    distance == ((26.0 - log2(q)) * LN_2 * capped as real).Floor + 1
  }

  /** One draw: the state moves on by one step and the distance comes from the new state. */
  ghost predicate Draw(distance: int, log2: int -> real, before: bv64, seed: bv64, after: bv64, mean: nat) {
    after == XorShift(StartState(before, seed)) && IsDraw(distance, log2, after, mean)
  }

  lemma ExponentIs(log2: int -> real, q: int)
    requires IsLog2(log2) && 1 <= q <= RANDOM_RANGE
    ensures Exponent(log2, q) == (26.0 - log2(q)) * LN_2
  {
    assert log2(q) <= log2(RANDOM_RANGE);
  }

  /** The thread-local cells of the sampler. */
  class SamplerCells {
    var nextSample: int
    var nextSampleRate: nat
    var rngState: bv64
    /** How often the generator has been seeded. */
    ghost var seeded: nat

    ghost function View(): Cells
      reads this
    {
      Cells(nextSample, nextSampleRate)
    }

    /** A thread seeds at most once. */
    ghost predicate Valid()
      reads this
    {
      if rngState == 0 then seeded == 0 else seeded == 1
    }

    constructor ()
      ensures Valid() && View() == UNUSED
    {
      nextSample, nextSampleRate, rngState, seeded := I64_MIN, USIZE_MAX, 0, 0;
    }

    method CheapRandom(seed: bv64) returns (r: nat)
      requires Valid() && seed != 0
      modifies this`rngState, this`seeded
      ensures Valid() && rngState != 0 && r == Output(rngState)
      ensures rngState == XorShift(StartState(old(rngState), seed))
    {
      var x := rngState;
      if x == 0 {
        x := seed;
        seeded := seeded + 1;
      }
      XorShiftStaysNonZero(x);
      x := Shift12(x);
      x := Shift25(x);
      x := Shift27(x);
      rngState := x;
      r := Output(x);
    }

    /** The draw fits `i32`, so neither the cast saturates nor the increment overflows. */
    method FastExpRand(mean: nat, log2: int -> real, seed: bv64) returns (distance: int)
      requires Valid() && seed != 0 && IsLog2(log2)
      modifies this`rngState, this`seeded
      ensures Valid()
      ensures mean >= 1 ==> 1 <= distance <= I32_MAX
      ensures mean >= 1 ==> Draw(distance, log2, old(rngState), seed, rngState, mean)
      ensures mean == 0 ==> distance == 0 && rngState == old(rngState)
    {
      var capped := Min(mean, MAX_FAST_EXP_RAND_MEAN);
      if capped == 0 {
        return 0;
      }
      var r := CheapRandom(seed);
      var q: nat := r % RANDOM_RANGE + 1;
      DistanceBounded(log2, q, capped);
      ExponentIs(log2, q);
      distance := ToI32(Exponent(log2, q) * capped as real) + 1;
    }

    method NextSampleDistance(rate: nat, log2: int -> real, seed: bv64) returns (distance: int)
      requires Valid() && seed != 0 && IsLog2(log2)
      modifies this`rngState, this`seeded
      ensures Valid()
      ensures rate == 0 ==> distance == I64_MAX
      ensures rate == 1 ==> distance == 0
      ensures rate < 2 ==> rngState == old(rngState)
      ensures rate >= 2 ==> 1 <= distance <= I32_MAX
      ensures rate >= 2 ==> Draw(distance, log2, old(rngState), seed, rngState, rate)
    {
      if rate == 0 {
        distance := I64_MAX;
      } else if rate == 1 {
        distance := 0;
      } else {
        distance := FastExpRand(rate, log2, seed);
      }
    }

    /** The first distance of a new rate. */
    method BeginRate(rate: nat, log2: int -> real, seed: bv64) returns (first: int)
      requires Valid() && seed != 0 && IsLog2(log2) && rate >= 2
      modifies this
      ensures Valid() && 1 <= first <= I32_MAX
      ensures if old(nextSampleRate) != rate then Draw(first, log2, old(rngState), seed, rngState, rate)
              else rngState == old(rngState)
      ensures View() == if old(nextSampleRate) != rate then Cells(first, rate) else old(View())
    {
      first := 1;
      if nextSampleRate != rate {
        nextSample := NextSampleDistance(rate, log2, seed);
        nextSampleRate := rate;
        first := nextSample;
      }
    }

    /** One decision of the countdown, with the distances it drew and the generator's state
        between them. */
    method ShouldSample(size: nat, rate: nat, log2: int -> real, seed: bv64)
      returns (sampled: bool, ghost first: int, ghost second: int, ghost between: bv64)
      requires Valid() && seed != 0 && IsLog2(log2)
      modifies this
      ensures Valid() && 1 <= first <= I32_MAX && 1 <= second <= I32_MAX
      ensures (View(), sampled) == Decide(old(View()), size, rate, first, second)
      ensures if size > 0 && rate >= 2 && old(nextSampleRate) != rate
              then Draw(first, log2, old(rngState), seed, between, rate) else between == old(rngState)
      ensures if size > 0 && rate >= 2 && sampled
              then Draw(second, log2, between, seed, rngState, rate) else rngState == between
    {
      hide Draw;
      first, second, between := 1, 1, rngState;
      if size == 0 || rate == 0 {
        return false, first, second, between;
      }
      if rate == 1 {
        return true, first, second, between;
      }
      first := BeginRate(rate, log2, seed);
      between := rngState;
      var next := Clamp64(nextSample - (if size <= I64_MAX then size else I64_MAX));
      if next < 0 {
        nextSample := NextSampleDistance(rate, log2, seed);
        second := nextSample;
        sampled := true;
      } else {
        nextSample := next;
        sampled := false;
      }
    }
  }

  // ---------- a run of calls ----------

  /** The distances drawn, as a function; past them it does not matter. */
  function DrawsOf(draws: seq<int>): nat -> int {
    (k: nat) => if k < |draws| then draws[k] else 1
  }

  /** What an allocation decides depends only on the distances drawn by then. */
  lemma AdvanceAgrees(o: Outcome, size: nat, rate: nat, draw: nat -> int, draw': nat -> int)
    requires forall k: nat | k < Advance(o, size, rate, draw).drawn :: draw(k) == draw'(k)
    requires rate >= 2
    ensures Advance(o, size, rate, draw) == Advance(o, size, rate, draw')
    ensures Advance(o, size, rate, draw).drawn >= o.drawn
  {
  }

  lemma {:induction false} CountdownAgrees(sizes: seq<nat>, rate: nat, draw: nat -> int, draw': nat -> int)
    requires rate >= 2 && forall k: nat | k < Countdown(sizes, rate, draw).drawn :: draw(k) == draw'(k)
    ensures Countdown(sizes, rate, draw) == Countdown(sizes, rate, draw')
  {
    if sizes != [] {
      var n := |sizes| - 1;
      var o := Countdown(sizes[..n], rate, draw);
      AdvanceAgrees(o, sizes[n], rate, draw, draw');
      CountdownAgrees(sizes[..n], rate, draw, draw');
    }
  }

  /** What one call has drawn. */
  function Drawn(before: Cells, size: nat, rate: nat, sampled: bool, first: int, second: int): seq<int> {
    (if size != 0 && before.rate != rate then [first] else []) + (if sampled then [second] else [])
  }

  /** The cells, the draws and the decisions are where the countdown has got to. */
  ghost predicate InStep(sizes: seq<nat>, rate: nat, draws: seq<int>, cells: Cells, taken: seq<bool>) {
    && (forall j | 0 <= j < |draws| :: 1 <= draws[j] <= I32_MAX)
    && Countdown(sizes, rate, DrawsOf(draws)) == Outcome(cells, |draws|, taken)
  }

  lemma {:induction false} CallAdvances(o: Outcome, size: nat, rate: nat, draws: seq<int>, after: Cells, sampled: bool,
                                        first: int, second: int)
    requires rate >= 2 && o.drawn == |draws| && (after, sampled) == Decide(o.cells, size, rate, first, second)
    ensures var draws' := draws + Drawn(o.cells, size, rate, sampled, first, second);
            Advance(o, size, rate, DrawsOf(draws')) == Outcome(after, |draws'|, o.taken + [sampled])
  {
    if size == 0 {
      assert draws + [] == draws;
    }
  }

  lemma {:induction false} DrawnInRange(draws: seq<int>, more: seq<int>)
    requires forall j | 0 <= j < |draws| :: 1 <= draws[j] <= I32_MAX
    requires forall j | 0 <= j < |more| :: 1 <= more[j] <= I32_MAX
    ensures forall j | 0 <= j < |draws + more| :: 1 <= (draws + more)[j] <= I32_MAX
    ensures forall k: nat | k < |draws| :: DrawsOf(draws)(k) == DrawsOf(draws + more)(k)
  {
  }

  lemma {:induction false} OneMoreCall(sizes: seq<nat>, rate: nat, draws: seq<int>, before: Cells, taken: seq<bool>,
                                       size: nat, after: Cells, sampled: bool, first: int, second: int)
    requires rate >= 2 && InStep(sizes, rate, draws, before, taken)
    requires 1 <= first <= I32_MAX && 1 <= second <= I32_MAX
    requires (after, sampled) == Decide(before, size, rate, first, second)
    ensures InStep(sizes + [size], rate, draws + Drawn(before, size, rate, sampled, first, second), after,
                   taken + [sampled])
  {
    var more := Drawn(before, size, rate, sampled, first, second);
    DrawnInRange(draws, more);
    CallAdvances(Outcome(before, |draws|, taken), size, rate, draws, after, sampled, first, second);
    CountdownAgrees(sizes, rate, DrawsOf(draws), DrawsOf(draws + more));
    assert (sizes + [size])[..|sizes|] == sizes;
  }

  lemma {:induction false} InStepIsCut(sizes: seq<nat>, rate: nat, draws: seq<int>, cells: Cells, taken: seq<bool>)
    requires rate >= 2 && InStep(sizes, rate, draws, cells, taken)
    ensures Draws(DrawsOf(draws)) && taken == Countdown(sizes, rate, DrawsOf(draws)).taken
    ensures rate != USIZE_MAX ==> Cut(sizes, taken, DrawsOf(draws))
  {
    if rate != USIZE_MAX {
      CountdownIsCut(sizes, rate, DrawsOf(draws));
    }
  }

  /** The distances come one by one from the states the generator runs through, which is at
      `state` by now. */
  ghost predicate DrawnFrom(draws: seq<int>, log2: int -> real, start: bv64, seed: bv64, state: bv64, rate: nat) {
    var x := if start == 0 then seed else start;
    && state == (if draws == [] then start else StateAfter(x, |draws|))
    && forall k | 0 <= k < |draws| :: IsDraw(draws[k], log2, StateAfter(x, k + 1), rate)
  }

  lemma StartsEmpty(log2: int -> real, start: bv64, seed: bv64, rate: nat)
    ensures DrawnFrom([], log2, start, seed, start, rate)
  {
  }

  lemma OneMoreDraw(draws: seq<int>, log2: int -> real, start: bv64, seed: bv64, before: bv64, distance: int,
                    after: bv64, rate: nat)
    requires seed != 0 && DrawnFrom(draws, log2, start, seed, before, rate)
    requires Draw(distance, log2, before, seed, after, rate)
    ensures DrawnFrom(draws + [distance], log2, start, seed, after, rate)
  {
    hide IsDraw;
    var x := if start == 0 then seed else start;
    NeverReseeds(x, |draws|);
    assert StartState(before, seed) == StateAfter(x, |draws|);
    assert after == StateAfter(x, |draws| + 1);
  }

  /** The draws of one call come after the others. */
  lemma CallDraws(draws: seq<int>, log2: int -> real, start: bv64, seed: bv64, state: bv64, rate: nat, c: Cells,
                  size: nat, sampled: bool, first: int, second: int, between: bv64, after: bv64)
    requires seed != 0 && DrawnFrom(draws, log2, start, seed, state, rate) && (size == 0 ==> !sampled)
    requires if size > 0 && c.rate != rate then Draw(first, log2, state, seed, between, rate) else between == state
    requires if sampled then Draw(second, log2, between, seed, after, rate) else after == between
    ensures DrawnFrom(draws + Drawn(c, size, rate, sampled, first, second), log2, start, seed, after, rate)
  {
    hide Draw, DrawnFrom;
    var begun := draws;
    if size > 0 && c.rate != rate {
      OneMoreDraw(draws, log2, start, seed, state, first, between, rate);
      begun := draws + [first];
    }
    assert DrawnFrom(begun, log2, start, seed, between, rate);
    if sampled {
      OneMoreDraw(begun, log2, start, seed, between, second, after, rate);
      assert begun + [second] == draws + Drawn(c, size, rate, sampled, first, second);
    } else {
      assert begun == draws + Drawn(c, size, rate, sampled, first, second);
    }
  }

  /** A thread's calls, one for each allocation, decide as the countdown does for the distances
      they draw, and so by the batch rule; the distances are those of the rate and of the
      generator, one for each of its states. */
  method SampleAll(cells: SamplerCells, sizes: seq<nat>, rate: nat, log2: int -> real, seed: bv64)
    returns (taken: seq<bool>, ghost draws: seq<int>)
    requires cells.Valid() && cells.View() == UNUSED && 2 <= rate && seed != 0 && IsLog2(log2)
    modifies cells
    ensures Draws(DrawsOf(draws)) && taken == Countdown(sizes, rate, DrawsOf(draws)).taken
    ensures |draws| == Countdown(sizes, rate, DrawsOf(draws)).drawn
    ensures rate != USIZE_MAX ==> Cut(sizes, taken, DrawsOf(draws))
    ensures DrawnFrom(draws, log2, old(cells.rngState), seed, cells.rngState, rate)
  {
    hide Draw, DrawnFrom;
    taken, draws := [], [];
    StartsEmpty(log2, cells.rngState, seed, rate);
    for k := 0 to |sizes|
      invariant cells.Valid() && InStep(sizes[..k], rate, draws, cells.View(), taken)
      invariant DrawnFrom(draws, log2, old(cells.rngState), seed, cells.rngState, rate)
    {
      ghost var before, state := cells.View(), cells.rngState;
      var sampled, first, second, between := cells.ShouldSample(sizes[k], rate, log2, seed);
      OneMoreCall(sizes[..k], rate, draws, before, taken, sizes[k], cells.View(), sampled, first, second);
      CallDraws(draws, log2, old(cells.rngState), seed, state, rate, before, sizes[k], sampled, first, second, between,
                cells.rngState);
      assert sizes[..k] + [sizes[k]] == sizes[..k + 1];
      draws := draws + Drawn(before, sizes[k], rate, sampled, first, second);
      taken := taken + [sampled];
    }
    assert sizes[..|sizes|] == sizes;
    InStepIsCut(sizes, rate, draws, cells.View(), taken);
  }
}
