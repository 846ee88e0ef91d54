/** Scaling sampled totals to estimates, over the reals. */
module Estimator {
  import L = Ledger
  import LI = LedgerInvariant

  const I64_MAX := 0x7FFF_FFFF_FFFF_FFFF
  /** `i64::MAX as f64`. */
  const I64_MAX_REAL: real := 9223372036854775808.0

  // ---------- the exponential, by two laws ----------

  ghost predicate AddLaw(exp: real -> real, a: real, b: real) {
    exp(a + b) == exp(a) * exp(b)
  }

  ghost predicate TangentLaw(exp: real -> real, x: real) {
    exp(x) >= 1.0 + x
  }

  ghost predicate IsExp(exp: real -> real) {
    && (forall a, b :: AddLaw(exp, a, b))
    && (forall x :: TangentLaw(exp, x))
  }

  lemma Cancel(x: real, y: real, k: real)
    requires k > 0.0 && x * k <= y * k
    ensures x <= y
  {
  }

  lemma StrictCancel(x: real, y: real, k: real)
    requires k > 0.0 && x * k < y * k
    ensures x < y
  {
  }

  lemma ExpBasics(exp: real -> real, x: real)
    requires IsExp(exp)
    ensures exp(x) > 0.0 && exp(x) * exp(-x) == 1.0 && exp(0.0) == 1.0
  {
    assert AddLaw(exp, 0.0, 0.0) && TangentLaw(exp, 0.0);
    assert exp(0.0) == exp(0.0) * exp(0.0) && exp(0.0) >= 1.0;
    assert exp(0.0) == 1.0 by { Cancel(exp(0.0), 1.0, exp(0.0)); }
    assert AddLaw(exp, x, -x);
    assert x + -x == 0.0;
    assert AddLaw(exp, x / 2.0, x / 2.0);
    assert x / 2.0 + x / 2.0 == x;
    assert exp(x) == exp(x / 2.0) * exp(x / 2.0) >= 0.0;
  }

  /** The chance that at least one byte out of `x` mean distances is hit. */
  function Hit(exp: real -> real, x: real): real {
    1.0 - exp(-x)
  }

  lemma HitBounds(exp: real -> real, x: real)
    requires IsExp(exp) && x > 0.0
    ensures 0.0 < Hit(exp, x) < 1.0 && Hit(exp, x) <= x && x * exp(-x) <= Hit(exp, x)
  {
    ExpBasics(exp, x);
    ExpBasics(exp, -x);
    assert TangentLaw(exp, x) && TangentLaw(exp, -x);
    var e, d := exp(x), exp(-x);
    assert (1.0 + x) * d <= e * d == 1.0;
    StrictCancel(d, 1.0, 1.0 + x);
  }

  lemma HitMonotone(exp: real -> real, x: real, y: real)
    requires IsExp(exp) && 0.0 < x <= y
    ensures Hit(exp, x) <= Hit(exp, y)
  {
    if x < y {
      HitBounds(exp, y - x);
      ExpBasics(exp, -x);
      assert AddLaw(exp, -x, -(y - x));
      assert -x + -(y - x) == -y;
      var d, r := exp(-x), exp(-(y - x));
      assert d * r <= d * 1.0;
    }
  }

  /** The chance grows more slowly than proportionally. */
  lemma HitConcave(exp: real -> real, x: real, y: real)
    requires IsExp(exp) && 0.0 < x <= y
    ensures x * (1.0 - exp(-y)) <= y * (1.0 - exp(-x))
  {
    if x < y {
      var z := y - x;
      HitBounds(exp, x);
      HitBounds(exp, z);
      assert AddLaw(exp, -x, -z);
      assert -x + -z == -y;
      var d, r := exp(-x), exp(-z);
      // x * d <= 1 - d and 1 - r <= z
      calc {
        x * Hit(exp, y);
        x * (1.0 - d * r);
        x * (1.0 - d) + (x * d) * (1.0 - r);
        <= { ProductsOrdered(x * d, 1.0 - d, 1.0 - r, z); }
        x * (1.0 - d) + (1.0 - d) * z;
        y * Hit(exp, x);
      }
    }
  }

  lemma ProductsOrdered(a: real, b: real, c: real, d: real)
    requires 0.0 <= a <= b && 0.0 <= c <= d
    ensures a * c <= b * d
  {
  }

  // ---------- the estimator ----------

  /** The float-to-integer cast after the upper clamp. */
  function ToI64(x: real): int
    requires x >= 0.0
  {
    var clamped := if x < I64_MAX_REAL then x else I64_MAX_REAL;
    if clamped.Floor > I64_MAX then I64_MAX else clamped.Floor
  }

  function SaturatingI64(x: nat): int {
    if x <= I64_MAX then x else I64_MAX
  }

  function Probability(exp: real -> real, count: nat, size: nat, rate: nat): real
    requires count > 0 && rate > 0
  {
    Hit(exp, size as real / count as real / rate as real)
  }

  /** Estimated count and bytes behind `count` samples of `size` bytes in all. */
  function ScaleHeapSample(exp: real -> real, count: nat, size: nat, rate: nat): (int, int)
    requires IsExp(exp)
  {
    if count == 0 || size == 0 then (0, 0)
    else if rate <= 1 then (SaturatingI64(count), SaturatingI64(size))
    else
      var probability := Probability(exp, count, size, rate);
      if probability <= 0.0 then (SaturatingI64(count), SaturatingI64(size))
      else
        (ToI64(Scaled(count, probability)), ToI64(Scaled(size, probability)))
  }

  /** What `n` is multiplied up to when each unit is seen with probability `p`. */
  function Scaled(n: nat, p: real): (r: real)
    requires p > 0.0
    ensures r >= 0.0 && r * p == n as real
  {
    ScalePositive(p, n as real);
    n as real * (1.0 / p)
  }

  lemma ScalePositive(p: real, x: real)
    requires p > 0.0 && x >= 0.0
    ensures x * (1.0 / p) >= 0.0 && x * (1.0 / p) * p == x
  {
    assert 1.0 / p > 0.0 && (1.0 / p) * p == 1.0;
    assert x * (1.0 / p) * p == x * ((1.0 / p) * p);
  }

  /** How many mean distances a sample covers. */
  function Distances(count: nat, size: nat, rate: nat): real
    requires count > 0 && rate > 0
  {
    size as real / count as real / rate as real
  }

  lemma DistancesTimes(count: nat, size: nat, rate: nat)
    requires count > 0 && rate > 0
    ensures Distances(count, size, rate) * (count as real * rate as real) == size as real
    ensures size > 0 ==> Distances(count, size, rate) > 0.0
  {
    var average := size as real / count as real;
    assert average * count as real == size as real;
    var x := average / rate as real;
    assert x * rate as real == average;
    assert x * (count as real * rate as real) == (x * rate as real) * count as real;
    if size > 0 { assert average > 0.0 && x > 0.0; }
  }

  lemma QuotientOrdered(a: real, b: real, k: real, l: real)
    requires 0.0 < k <= l && a * k == b * l && a >= 0.0
    ensures b <= a
  {
    assert a * k <= a * l;
    Cancel(b, a, l);
  }

  /** The un-rounded byte estimate grows with the count. */
  lemma MoreSamples(exp: real -> real, c: nat, c': nat, size: nat, rate: nat)
    requires IsExp(exp) && 0 < c <= c' && size > 0 && rate > 0
    ensures 0.0 < Probability(exp, c', size, rate) <= Probability(exp, c, size, rate)
  {
    DistancesTimes(c, size, rate);
    DistancesTimes(c', size, rate);
    assert c as real * rate as real <= c' as real * rate as real;
    QuotientOrdered(Distances(c, size, rate), Distances(c', size, rate), c as real * rate as real,
                    c' as real * rate as real);
    HitMonotone(exp, Distances(c', size, rate), Distances(c, size, rate));
    HitBounds(exp, Distances(c', size, rate));
  }

  /** The un-rounded byte estimate grows with the size. */
  lemma MoreBytes(exp: real -> real, count: nat, s: nat, s': nat, rate: nat)
    requires IsExp(exp) && count > 0 && 0 < s <= s' && rate > 0
    ensures s as real * Probability(exp, count, s', rate) <= s' as real * Probability(exp, count, s, rate)
  {
    var x, y := Distances(count, s, rate), Distances(count, s', rate);
    var k := count as real * rate as real;
    DistancesTimes(count, s, rate);
    DistancesTimes(count, s', rate);
    Cancel(x, y, k);
    HitConcave(exp, x, y);
    var p, p' := Hit(exp, x), Hit(exp, y);
    assert (x * p') * k <= (y * p) * k;
    assert (x * p') * k == (x * k) * p' && (y * p) * k == (y * k) * p;
  }

  lemma ScaledOrdered(a: nat, p: real, b: nat, q: real)
    requires p > 0.0 && q > 0.0 && a as real * q <= b as real * p
    ensures Scaled(a, p) <= Scaled(b, q)
  {
    var u, v := Scaled(a, p), Scaled(b, q);
    assert u * (p * q) == (u * p) * q && v * (p * q) == (v * q) * p;
    Cancel(u, v, p * q);
  }

  /** The scaling branch is the one taken for every sampled trace. */
  lemma ScalingBranch(exp: real -> real, count: nat, size: nat, rate: nat)
    requires IsExp(exp) && count > 0 && size > 0 && rate > 1
    ensures var p := Probability(exp, count, size, rate);
            0.0 < p < 1.0 && ScaleHeapSample(exp, count, size, rate)
              == (ToI64(Scaled(count, p)), ToI64(Scaled(size, p)))
  {
    DistancesTimes(count, size, rate);
    HitBounds(exp, Distances(count, size, rate));
  }

  // ---------- what an estimate is ----------

  /** `r` is `n` divided by the chance that a block of average size is sampled, rounded down and
      at most `i64::MAX`. The chance is one minus the exponential of minus the average size in
      units of the rate. */
  ghost predicate IsEstimate(exp: real -> real, r: int, n: nat, count: nat, size: nat, rate: nat)
    requires count > 0 && rate > 0
  {
    var chance := 1.0 - exp(-(size as real / count as real / rate as real));
    && 0 <= r <= 9223372036854775807 && r as real * chance <= n as real
    && (r == 9223372036854775807 || n as real < (r as real + 1.0) * chance)
  }

  lemma CastWithin(x: real)
    requires x >= 0.0
    ensures 0 <= ToI64(x) <= 9223372036854775807 && ToI64(x) as real <= x
    ensures ToI64(x) == 9223372036854775807 || x < ToI64(x) as real + 1.0
  {
  }

  lemma CastOfQuotient(e: real, p: real, n: nat, r: int)
    requires p > 0.0 && e >= 0.0 && e * p == n as real && r == ToI64(e)
    ensures r as real * p <= n as real
    ensures r == 9223372036854775807 || n as real < (r as real + 1.0) * p
  {
    CastWithin(e);
    Times(r as real, e, p);
    if r != 9223372036854775807 {
      QuotientBelow(e, p, n as real, r as real + 1.0);
    }
  }

  lemma Times(a: real, b: real, k: real)
    requires a <= b && k >= 0.0
    ensures a * k <= b * k
  {
  }

  lemma QuotientBelow(e: real, p: real, n: real, above: real)
    requires p > 0.0 && e * p == n && e < above
    ensures n < above * p
  {
    assert (above - e) * p > 0.0;
  }

  lemma ScaledIsEstimate(exp: real -> real, n: nat, count: nat, size: nat, rate: nat)
    requires IsExp(exp) && count > 0 && size > 0 && rate > 0
    ensures Probability(exp, count, size, rate) > 0.0
    ensures IsEstimate(exp, ToI64(Scaled(n, Probability(exp, count, size, rate))), n, count, size, rate)
  {
    DistancesTimes(count, size, rate);
    HitBounds(exp, Distances(count, size, rate));
    var p := Probability(exp, count, size, rate);
    CastWithin(Scaled(n, p));
    CastOfQuotient(Scaled(n, p), p, n, ToI64(Scaled(n, p)));
  }

  /** What is reported for `n`: nothing when a total is empty, `n` itself when the rate means that
      every block is sampled, and otherwise the estimate. */
  ghost predicate IsReported(exp: real -> real, r: int, n: nat, count: nat, size: nat, rate: nat) {
    if count == 0 || size == 0 then r == 0
    else if rate <= 1 then r == if n <= 9223372036854775807 then n else 9223372036854775807
    else IsEstimate(exp, r, n, count, size, rate)
  }

  /** The estimates of a pair of totals are what should be reported for them. */
  lemma ScaleHeapSampleIs(exp: real -> real, count: nat, size: nat, rate: nat)
    requires IsExp(exp)
    ensures var (objects, space) := ScaleHeapSample(exp, count, size, rate);
            IsReported(exp, objects, count, count, size, rate) && IsReported(exp, space, size, count, size, rate)
  {
    if count > 0 && size > 0 && rate > 1 {
      ScalingBranch(exp, count, size, rate);
      ScaledIsEstimate(exp, count, count, size, rate);
      ScaledIsEstimate(exp, size, count, size, rate);
    }
  }

  lemma NotBelow(r: int, r': int, n: real, p: real)
    requires p > 0.0 && r' as real * p <= n && n < (r as real + 1.0) * p
    ensures r' <= r
  {
    StrictCancel(r' as real, r as real + 1.0, p);
  }

  lemma ChanceIsPositive(exp: real -> real, count: nat, size: nat, rate: nat)
    requires IsExp(exp) && count > 0 && size > 0 && rate > 0
    ensures 1.0 - exp(-(size as real / count as real / rate as real)) > 0.0
  {
    DistancesTimes(count, size, rate);
    HitBounds(exp, Distances(count, size, rate));
  }

  /** There is only one such number. */
  lemma EstimateIsUnique(exp: real -> real, r: int, r': int, n: nat, count: nat, size: nat, rate: nat)
    requires IsExp(exp) && count > 0 && size > 0 && rate > 0
    requires IsEstimate(exp, r, n, count, size, rate) && IsEstimate(exp, r', n, count, size, rate)
    ensures r == r'
  {
    var p := 1.0 - exp(-(size as real / count as real / rate as real));
    ChanceIsPositive(exp, count, size, rate);
    if r < 9223372036854775807 { NotBelow(r, r', n as real, p); }
    if r' < 9223372036854775807 { NotBelow(r', r, n as real, p); }
  }

  lemma CastMonotone(x: real, y: real)
    requires 0.0 <= x <= y
    ensures 0 <= ToI64(x) <= ToI64(y)
  {
  }

  lemma CastOfScaled(n: nat, p: real)
    requires 0.0 < p < 1.0
    ensures SaturatingI64(n) <= ToI64(Scaled(n, p))
  {
    var u := Scaled(n, p);
    assert u * p <= u * 1.0;
    CastMonotone(n as real, u);
  }

  /** An estimate is never below what was actually sampled. */
  lemma EstimateAtLeastRaw(exp: real -> real, count: nat, size: nat, rate: nat)
    requires IsExp(exp)
    ensures count > 0 ==> SaturatingI64(size) <= ScaleHeapSample(exp, count, size, rate).1
    ensures size > 0 ==> SaturatingI64(count) <= ScaleHeapSample(exp, count, size, rate).0
    ensures ScaleHeapSample(exp, count, size, rate).1 >= 0
  {
    if count > 0 && size > 0 && rate > 1 {
      ScalingBranch(exp, count, size, rate);
      CastOfScaled(count, Probability(exp, count, size, rate));
      CastOfScaled(size, Probability(exp, count, size, rate));
    }
  }

  lemma ScaledSpaceMonotone(exp: real -> real, c: nat, s: nat, c': nat, s': nat, rate: nat)
    requires IsExp(exp) && 0 < c <= c' && 0 < s <= s' && rate > 0
    requires Probability(exp, c, s, rate) > 0.0 && Probability(exp, c', s', rate) > 0.0
    ensures Scaled(s, Probability(exp, c, s, rate)) <= Scaled(s', Probability(exp, c', s', rate))
  {
    var p, mid, q := Probability(exp, c, s, rate), Probability(exp, c', s, rate), Probability(exp, c', s', rate);
    MoreSamples(exp, c, c', s, rate);
    ProductsOrdered(s as real, s as real, mid, p);
    ScaledOrdered(s, p, s, mid);
    MoreBytes(exp, c', s, s', rate);
    ScaledOrdered(s, mid, s', q);
  }

  /** Scaling keeps the order of bytes: more samples of more bytes never estimate less space. */
  lemma {:induction false} SpaceMonotone(exp: real -> real, c: nat, s: nat, c': nat, s': nat, rate: nat)
    requires IsExp(exp) && c <= c' && s <= s'
    ensures ScaleHeapSample(exp, c, s, rate).1 <= ScaleHeapSample(exp, c', s', rate).1
  {
    if c > 0 && s > 0 && rate > 1 {
      ScalingBranch(exp, c, s, rate);
      ScalingBranch(exp, c', s', rate);
      ScaledSpaceMonotone(exp, c, s, c', s', rate);
      CastMonotone(Scaled(s, Probability(exp, c, s, rate)), Scaled(s', Probability(exp, c', s', rate)));
    } else {
      EstimateAtLeastRaw(exp, c', s', rate);
    }
  }

  // ---------- profile values ----------

  datatype HeapSampleValues = HeapSampleValues(allocObjects: int, allocSpace: int, inuseObjects: int, inuseSpace: int)

  function InUse(gained: nat, lost: nat): nat {
    if gained >= lost then gained - lost else 0
  }

  ghost function FromAllocations(exp: real -> real, t: L.Totals, rate: nat): HeapSampleValues
    requires IsExp(exp)
  {
    var (ao, asp) := ScaleHeapSample(exp, t.allocs, t.allocBytes, rate);
    var (io, isp) := ScaleHeapSample(exp, InUse(t.allocs, t.frees), InUse(t.allocBytes, t.freeBytes), rate);
    HeapSampleValues(ao, asp, io, isp)
  }

  /** For every trace of every run of the ledger, the estimated live space lies between the
      bytes of the recorded live blocks and the estimated cumulative space. */
  lemma LiveSpaceBounds(exp: real -> real, steps: seq<L.Step>, t: L.Trace, rate: nat, exact: bool)
    requires IsExp(exp) && L.Legal(L.INITIAL, steps, exact)
    ensures var s := L.Exec(L.INITIAL, steps, exact);
            var v := FromAllocations(exp, L.TotalsOf(s.traces, t), rate);
            && v.inuseSpace <= v.allocSpace
            && 0 <= LI.Accounted(s, t, L.Bytes) && SaturatingI64(LI.Accounted(s, t, L.Bytes)) <= v.inuseSpace
  {
    var s := L.Exec(L.INITIAL, steps, exact);
    var totals := L.TotalsOf(s.traces, t);
    LI.NeverOverFreed(steps, t, exact);
    var count, size := InUse(totals.allocs, totals.frees), InUse(totals.allocBytes, totals.freeBytes);
    SpaceMonotone(exp, count, size, totals.allocs, totals.allocBytes, rate);
    EstimateAtLeastRaw(exp, count, size, rate);
    if count == 0 {
      LI.NoBlocksNoBytes(s, t);
    }
  }

  /** The four values of a trace of any run: its allocation totals, and its totals less what was
      freed, each scaled as above. */
  lemma ValuesOfTrace(exp: real -> real, steps: seq<L.Step>, t: L.Trace, rate: nat, exact: bool)
    requires IsExp(exp) && L.Legal(L.INITIAL, steps, exact)
    ensures var totals := L.TotalsOf(L.Exec(L.INITIAL, steps, exact).traces, t);
            var v := FromAllocations(exp, totals, rate);
            var count, size := totals.allocs - totals.frees, totals.allocBytes - totals.freeBytes;
            && count >= 0 && size >= 0
            && IsReported(exp, v.allocObjects, totals.allocs, totals.allocs, totals.allocBytes, rate)
            && IsReported(exp, v.allocSpace, totals.allocBytes, totals.allocs, totals.allocBytes, rate)
            && IsReported(exp, v.inuseObjects, count, count, size, rate)
            && IsReported(exp, v.inuseSpace, size, count, size, rate)
  {
    var totals := L.TotalsOf(L.Exec(L.INITIAL, steps, exact).traces, t);
    LI.NeverOverFreed(steps, t, exact);
    ScaleHeapSampleIs(exp, totals.allocs, totals.allocBytes, rate);
    ScaleHeapSampleIs(exp, totals.allocs - totals.frees, totals.allocBytes - totals.freeBytes, rate);
  }

  // ---------- objects ----------

  /** The un-rounded object estimates of a part and of the whole keep their order at a rate. */
  ghost predicate ObjectsOrdered(exp: real -> real, c: nat, s: nat, c': nat, s': nat, rate: nat)
    requires IsExp(exp) && c > 0 && s > 0 && c' > 0 && s' > 0 && rate > 1
  {
    ScalingBranch(exp, c, s, rate);
    ScalingBranch(exp, c', s', rate);
    Scaled(c, Probability(exp, c, s, rate)) <= Scaled(c', Probability(exp, c', s', rate))
  }

  /** The same after truncation. */
  ghost predicate TruncatedOrdered(exp: real -> real, c: nat, s: nat, c': nat, s': nat, rate: nat)
    requires IsExp(exp) && c > 0 && s > 0 && c' > 0 && s' > 0 && rate > 1
  {
    ScalingBranch(exp, c, s, rate);
    ScalingBranch(exp, c', s', rate);
    Scaled(c, Probability(exp, c, s, rate)).Floor <= Scaled(c', Probability(exp, c', s', rate)).Floor
  }

  /** The condition on the totals, as one on the distances. */
  lemma DistancesCompared(c: nat, s: nat, c': nat, s': nat, rate: nat)
    requires c > 0 && c' > 0 && rate > 0 && c * c * s' <= c' * c' * s
    ensures c as real * Distances(c', s', rate) <= c' as real * Distances(c, s, rate)
  {
    var n, n', r := c as real, c' as real, rate as real;
    var x, y := Distances(c, s, rate), Distances(c', s', rate);
    DistancesTimes(c, s, rate);
    DistancesTimes(c', s', rate);
    CastProduct(c, s');
    CastProduct(c', s);
    assert (n * y) * (n * n' * r) == n * n * (y * (n' * r)) == n * n * s' as real;
    assert (n' * x) * (n * n' * r) == n' * n' * (x * (n * r)) == n' * n' * s as real;
    assert n * n' * r > 0.0;
    Cancel(n * y, n' * x, n * n' * r);
  }

  lemma CastProduct(a: nat, b: nat)
    ensures (a * a * b) as real == a as real * a as real * b as real
  {
    assert (a * a) as real == a as real * a as real;
  }

  lemma Chained(n: real, x: real, p: real, n': real, y: real, q: real)
    requires n > 0.0 && x > 0.0 && p > 0.0 && x * q <= y * p && n * y <= n' * x
    ensures n * q <= n' * p
  {
    Times(x * q, y * p, n);
    Times(n * y, n' * x, p);
    Cancel(n * q, n' * p, x);
  }

  lemma HitsNear(exp: real -> real, n: real, x: real, n': real, y: real)
    requires IsExp(exp) && 0.0 < n <= n' && 0.0 < y <= x
    ensures n * Hit(exp, y) <= n' * Hit(exp, x)
  {
    HitBounds(exp, y);
    HitMonotone(exp, y, x);
    ProductsOrdered(n, n', Hit(exp, y), Hit(exp, x));
  }

  lemma HitsFar(exp: real -> real, n: real, x: real, n': real, y: real)
    requires IsExp(exp) && 0.0 < n && 0.0 < x < y && n * y <= n' * x
    ensures n * Hit(exp, y) <= n' * Hit(exp, x)
  {
    HitBounds(exp, x);
    HitConcave(exp, x, y);
    Chained(n, x, Hit(exp, x), n', y, Hit(exp, y));
  }

  lemma ObjectsInOrder(exp: real -> real, c: nat, s: nat, c': nat, s': nat, rate: nat)
    requires IsExp(exp) && 0 < c <= c' && s > 0 && s' > 0 && rate > 1 && c * c * s' <= c' * c' * s
    ensures ObjectsOrdered(exp, c, s, c', s', rate)
  {
    ScalingBranch(exp, c, s, rate);
    ScalingBranch(exp, c', s', rate);
    DistancesTimes(c, s, rate);
    DistancesTimes(c', s', rate);
    DistancesCompared(c, s, c', s', rate);
    var x, y := Distances(c, s, rate), Distances(c', s', rate);
    if y <= x {
      HitsNear(exp, c as real, x, c' as real, y);
    } else {
      HitsFar(exp, c as real, x, c' as real, y);
    }
    ScaledOrdered(c, Probability(exp, c, s, rate), c', Probability(exp, c', s', rate));
  }

  /** A hit is at least as likely as `y / (1 + y)`. */
  lemma HitAtLeast(exp: real -> real, y: real)
    requires IsExp(exp) && y > 0.0
    ensures Hit(exp, y) * (1.0 + y) >= y
  {
    ExpBasics(exp, y);
    assert TangentLaw(exp, y);
    var d := exp(-y);
    ExpBasics(exp, -y);
    assert d * (1.0 + y) <= d * exp(y) == 1.0;
  }

  lemma WithinLow(e: real, p: real, x: real, n: real, r: real)
    requires e >= 0.0 && n > 0.0 && r > 0.0 && e * p == n && p <= x
    ensures n * (n * r) <= e * (x * (n * r))
  {
    Times(p, x, e);
    Times(n, e * x, n * r);
    assert e * (x * (n * r)) == (e * x) * (n * r);
  }

  lemma WithinHigh(e: real, p: real, x: real, n: real, r: real)
    requires e >= 0.0 && n > 0.0 && r > 0.0 && e * p == n && x <= p * (1.0 + x)
    ensures e * (x * (n * r)) <= n * (n * r) + n * (x * (n * r))
  {
    Times(x, p * (1.0 + x), e);
    assert e * (p * (1.0 + x)) == (e * p) * (1.0 + x);
    Times(e * x, n * (1.0 + x), n * r);
    assert e * (x * (n * r)) == (e * x) * (n * r);
    assert n * (1.0 + x) * (n * r) == n * (n * r) + n * (x * (n * r));
  }

  lemma ScaledBounds(exp: real -> real, c: nat, x: real, r: real, size: real)
    requires IsExp(exp) && c > 0 && x > 0.0 && r > 0.0 && x * (c as real * r) == size
    ensures Hit(exp, x) > 0.0
    ensures var e, n := Scaled(c, Hit(exp, x)), c as real; n * (n * r) <= e * size <= n * (n * r) + n * size
  {
    HitBounds(exp, x);
    HitAtLeast(exp, x);
    WithinLow(Scaled(c, Hit(exp, x)), Hit(exp, x), x, c as real, r);
    WithinHigh(Scaled(c, Hit(exp, x)), Hit(exp, x), x, c as real, r);
  }

  /** An estimate lies within `c` of `c * c * rate / s`. */
  lemma ScaledWithin(exp: real -> real, c: nat, s: nat, rate: nat)
    requires IsExp(exp) && c > 0 && s > 0 && rate > 1
    ensures Probability(exp, c, s, rate) > 0.0
    ensures var e, n, size, r := Scaled(c, Probability(exp, c, s, rate)), c as real, s as real, rate as real;
            n * (n * r) <= e * size <= n * (n * r) + n * size
  {
    DistancesTimes(c, s, rate);
    ScaledBounds(exp, c, Distances(c, s, rate), rate as real, s as real);
  }

  /** A rate at which the order fails by more than truncation can hide. */
  function WitnessRate(s: nat, c': nat, s': nat): nat {
    s * s' * (c' + 1) + 2
  }

  lemma LowTimes(a: real, z: real, z': real, n: real, r: real)
    requires z' > 0.0 && a * z >= n * (n * r)
    ensures n * n * z' * r <= a * (z * z')
  {
    Times(n * (n * r), a * z, z');
    assert n * (n * r) * z' == n * n * z' * r && (a * z) * z' == a * (z * z');
  }

  lemma HighTimes(b: real, z: real, z': real, n: real, r: real)
    requires z > 0.0 && b * z' <= n * (n * r) + n * z'
    ensures b * (z * z') <= n * n * z * r + n * (z * z')
  {
    Times(b * z', n * (n * r) + n * z', z);
    assert (b * z') * z == b * (z * z');
    assert (n * (n * r) + n * z') * z == n * n * z * r + n * (z * z');
  }

  /** Two bounds with room for one between them. */
  lemma Apart(a: real, b: real, w: real, low: real, high: real)
    requires w > 0.0 && low <= a * w && b * w <= high && high + w <= low
    ensures a >= b + 1.0
  {
    assert (b + 1.0) * w == b * w + w;
    Cancel(b + 1.0, a, w);
  }

  /** The rate is large enough to move the estimates apart by one. */
  predicate Room(n: real, z: real, n': real, z': real, r: real) {
    z > 0.0 && z' > 0.0 && n' * n' * z * r + n' * (z * z') + z * z' <= n * n * z' * r
  }

  lemma EstimatesApart(a: real, b: real, n: real, z: real, n': real, z': real, r: real)
    requires Room(n, z, n', z', r) && a * z >= n * (n * r) && b * z' <= n' * (n' * r) + n' * z'
    ensures a >= b + 1.0
  {
    LowTimes(a, z, z', n, r);
    HighTimes(b, z, z', n', r);
    assert z * z' > 0.0;
    Apart(a, b, z * z', n * n * z' * r, n' * n' * z * r + n' * (z * z'));
  }

  lemma OneMoreTimes(a: nat, b: nat, r: nat)
    requires a > b
    ensures b * r + r <= a * r
  {
    var d := a - b - 1;
    assert a * r == b * r + r + d * r;
  }

  lemma CastTimes(a: nat, b: nat)
    ensures (a * b) as real == a as real * b as real
  {
  }

  lemma RoomAtWitness(c: nat, s: nat, c': nat, s': nat)
    requires s > 0 && s' > 0 && c * c * s' > c' * c' * s
    ensures Room(c as real, s as real, c' as real, s' as real, WitnessRate(s, c', s') as real)
  {
    var a, b, w, t, r := c * c * s', c' * c' * s, s * s', c' * (s * s'), WitnessRate(s, c', s');
    assert r == t + w + 2;
    OneMoreTimes(a, b, r);
    CastTimes(a, r);
    CastTimes(b, r);
    CastProduct(c, s');
    CastProduct(c', s);
    CastTimes(s, s');
    CastTimes(c', s * s');
    assert (b * r) as real + t as real + w as real <= (a * r) as real;
  }

  lemma ObjectsOutOfOrder(exp: real -> real, c: nat, s: nat, c': nat, s': nat)
    requires IsExp(exp) && c > 0 && s > 0 && c' > 0 && s' > 0 && c * c * s' > c' * c' * s
    ensures var rate := WitnessRate(s, c', s');
            Probability(exp, c, s, rate) > 0.0 && Probability(exp, c', s', rate) > 0.0
            && Scaled(c, Probability(exp, c, s, rate)) >= Scaled(c', Probability(exp, c', s', rate)) + 1.0
  {
    var rate := WitnessRate(s, c', s');
    ScaledWithin(exp, c, s, rate);
    ScaledWithin(exp, c', s', rate);
    var a, b := Scaled(c, Probability(exp, c, s, rate)), Scaled(c', Probability(exp, c', s', rate));
    RoomAtWitness(c, s, c', s');
    EstimatesApart(a, b, c as real, s as real, c' as real, s' as real, rate as real);
  }

  /** Whatever the rate, live objects are estimated at no more than allocated objects, if and
      only if the totals meet one inequality; truncation makes no difference. */
  lemma ObjectsOrderedExactly(exp: real -> real, c: nat, s: nat, c': nat, s': nat)
    requires IsExp(exp) && 0 < c <= c' && 0 < s <= s'
    ensures (forall rate | rate > 1 :: ObjectsOrdered(exp, c, s, c', s', rate)) <==> c * c * s' <= c' * c' * s
    ensures (forall rate | rate > 1 :: TruncatedOrdered(exp, c, s, c', s', rate)) <==> c * c * s' <= c' * c' * s
  {
    if c * c * s' <= c' * c' * s {
      forall rate | rate > 1
        ensures ObjectsOrdered(exp, c, s, c', s', rate) && TruncatedOrdered(exp, c, s, c', s', rate)
      {
        ObjectsInOrder(exp, c, s, c', s', rate);
      }
    } else {
      var rate := WitnessRate(s, c', s');
      ObjectsOutOfOrder(exp, c, s, c', s');
      assert !ObjectsOrdered(exp, c, s, c', s', rate) && !TruncatedOrdered(exp, c, s, c', s', rate);
    }
  }

  /** The estimates themselves, at any rate, clamped and with empty totals included. */
  lemma LiveObjectsOrdered(exp: real -> real, c: nat, s: nat, c': nat, s': nat, rate: nat)
    requires IsExp(exp) && c <= c' && s <= s' && (c == 0 || s == 0 || c * c * s' <= c' * c' * s)
    ensures ScaleHeapSample(exp, c, s, rate).0 <= ScaleHeapSample(exp, c', s', rate).0
  {
    if c > 0 && s > 0 && rate > 1 {
      ScalingBranch(exp, c, s, rate);
      ScalingBranch(exp, c', s', rate);
      ObjectsInOrder(exp, c, s, c', s', rate);
      CastMonotone(Scaled(c, Probability(exp, c, s, rate)), Scaled(c', Probability(exp, c', s', rate)));
    } else if c' > 0 && s' > 0 && rate > 1 {
      ScalingBranch(exp, c', s', rate);
      CastMonotone(0.0, Scaled(c', Probability(exp, c', s', rate)));
    }
  }

  /** Without the inequality some rate reverses the estimates, unless the larger total is
      clamped there. */
  lemma LiveObjectsReversed(exp: real -> real, c: nat, s: nat, c': nat, s': nat) returns (rate: nat)
    requires IsExp(exp) && 0 < c <= c' && 0 < s <= s' && c * c * s' > c' * c' * s
    ensures var live, all := ScaleHeapSample(exp, c, s, rate).0, ScaleHeapSample(exp, c', s', rate).0;
            all < live || all == I64_MAX
  {
    rate := WitnessRate(s, c', s');
    ObjectsOutOfOrder(exp, c, s, c', s');
    ScalingBranch(exp, c, s, rate);
    ScalingBranch(exp, c', s', rate);
    CastStrict(Scaled(c', Probability(exp, c', s', rate)), Scaled(c, Probability(exp, c, s, rate)));
  }

  lemma CastStrict(x: real, y: real)
    requires 0.0 <= x && x + 1.0 <= y
    ensures ToI64(x) < ToI64(y) || ToI64(x) == I64_MAX
  {
  }

  lemma {:induction false} HugeBlockFreed(exp: real -> real)
    requires IsExp(exp)
    ensures var v := FromAllocations(exp, L.Totals(1_000_001, 1_000_000, 2, 1), 1000);
            v.inuseObjects >= 1000 && v.allocObjects <= 2
  {
    var x, y := Distances(1, 1, 1000), Distances(2, 1_000_001, 1000);
    assert x == 0.001 && y > 500.0;
    HitBounds(exp, x);
    HitBounds(exp, y);
    var p, q := Hit(exp, x), Hit(exp, y);
    var u := Scaled(1, p);
    Cancel(1000.0, u, p);
    ExpBasics(exp, y);
    assert TangentLaw(exp, y);
    var d := exp(-y);
    StrictCancel(d, 0.002, exp(y));
    var w := Scaled(2, q);
    StrictCancel(w, 3.0, q);
  }

  /** Two recorded allocations under one trace, and the larger block freed again. */
  lemma HugeBlockRun() returns (run: seq<L.Step>)
    ensures L.Legal(L.INITIAL, run, true)
    ensures L.TotalsOf(L.Exec(L.INITIAL, run, true).traces, [1]) == L.Totals(1_000_001, 1_000_000, 2, 1)
  {
    run := LI.AllocateAndRecord([], 64, 1_000_000, [1], true);
    run := LI.AllocateAndRecord(run, 128, 1, [1], true);
    run := LI.FreeTracked(run, 64, true);
  }

  /** A run in which freeing one huge block of two raises the estimate of live objects far
      above that of all objects allocated. */
  lemma LiveObjectsCanExceedAllocated(exp: real -> real) returns (run: seq<L.Step>)
    requires IsExp(exp)
    ensures L.Legal(L.INITIAL, run, true)
    ensures var v := FromAllocations(exp, L.TotalsOf(L.Exec(L.INITIAL, run, true).traces, [1]), 1000);
            v.inuseObjects >= 1000 && v.allocObjects <= 2
  {
    run := HugeBlockRun();
    HugeBlockFreed(exp);
  }
}
