/**
  The Cyclone V integer-PLL search. Frequencies are exact reals where the program uses doubles;
  everything else (limits, loops, early break, epsilon comparison) is as in the program.
*/
module PllCalc {
  import opened Wrappers

  const REFERENCE_HZ: real := 50_000_000.0
  const PFD_MIN_HZ: real := 5_000_000.0
  const PFD_MAX_HZ: real := 325_000_000.0
  const VCO_MIN_HZ: real := 600_000_000.0
  const VCO_MAX_HZ: real := 1_600_000_000.0
  const PREFERRED_VCO_HZ: real := 1_000_000_000.0
  const COUNTER_MIN := 1
  const COUNTER_MAX := 510
  const OUTPUT_MIN_HZ: real := VCO_MIN_HZ / (COUNTER_MAX as real)
  const OUTPUT_MAX_HZ: real := VCO_MAX_HZ / (COUNTER_MIN as real)
  const EPS_HZ: real := 0.000_000_001

  datatype Counters = Counters(n: int, m: int, c: int)

  datatype Parameters = Parameters(
    counters: Counters, requestedHz: real, actualHz: real, pfdHz: real, vcoHz: real, errorHz: real, errorPpm: real)

  function Abs(x: real): real { if x < 0.0 then -x else x }

  function Pfd(n: int): real
    requires n > 0
  {
    REFERENCE_HZ / n as real
  }

  function Vco(k: Counters): real
    requires k.n > 0
  {
    Pfd(k.n) * k.m as real
  }

  function Output(k: Counters): real
    requires k.n > 0 && k.c > 0
  {
    Vco(k) / k.c as real
  }

  function MakeParameters(k: Counters, requested: real): Parameters
    requires k.n > 0 && k.c > 0 && requested > 0.0
  {
    var error := Output(k) - requested;
    Parameters(k, requested, Output(k), Pfd(k.n), Vco(k), error, error / requested * 1_000_000.0)
  }

  predicate InRange(x: int) { COUNTER_MIN <= x <= COUNTER_MAX }

  predicate IsStrict(k: Counters)
  {
    && InRange(k.n) && InRange(k.m) && InRange(k.c)
    && PFD_MIN_HZ <= Pfd(k.n) <= PFD_MAX_HZ
    && VCO_MIN_HZ <= Vco(k) <= VCO_MAX_HZ
  }

  /** A strict setting by multiplication only. */
  lemma StrictIff(k: Counters)
    requires 1 <= k.n <= 510 && 1 <= k.m <= 510 && 1 <= k.c <= 510
    ensures IsStrict(k) <==>
      && 5_000_000 * k.n <= 50_000_000 <= 325_000_000 * k.n
      && 600_000_000 * k.n <= 50_000_000 * k.m <= 1_600_000_000 * k.n
  {
    var n := k.n as real;
    DivMul(REFERENCE_HZ, n);
    VcoTimesN(Pfd(k.n), n, k.m as real);
    Between(PFD_MIN_HZ, Pfd(k.n), PFD_MAX_HZ, n, REFERENCE_HZ);
    Between(VCO_MIN_HZ, Vco(k), VCO_MAX_HZ, n, REFERENCE_HZ * k.m as real);
    Whole(5_000_000, 325_000_000, k.n, 50_000_000);
    Whole(600_000_000, 1_600_000_000, k.n, 50_000_000 * k.m);
  }

  lemma VcoTimesN(p: real, n: real, m: real)
    requires p * n == REFERENCE_HZ
    ensures p * m * n == REFERENCE_HZ * m
  {
    assert p * m * n == (p * n) * m;
  }

  lemma Between(low: real, x: real, high: real, n: real, product: real)
    requires n > 0.0 && x * n == product
    ensures low <= x <= high <==> low * n <= product <= high * n
  {
    Ordered(low, x, n);
    Ordered(x, high, n);
  }

  lemma Whole(low: int, high: int, n: int, product: int)
    ensures low as real * n as real <= product as real <= high as real * n as real <==> low * n <= product <= high * n
  {
    assert low as real * n as real == (low * n) as real && high as real * n as real == (high * n) as real;
  }

  lemma Ordered(x: real, y: real, n: real)
    requires n > 0.0
    ensures x <= y <==> x * n <= y * n
  {
    assert y * n - x * n == (y - x) * n;
  }

  lemma StrictInRange(k: Counters)
    ensures IsStrict(k) ==> 1 <= k.n <= 510 && 1 <= k.m <= 510 && 1 <= k.c <= 510
  {
  }

  predicate IsBetter(candidate: Parameters, best: Parameters)
  {
    var ce, be := Abs(candidate.errorHz), Abs(best.errorHz);
    if ce < be - EPS_HZ then true
    else if ce > be + EPS_HZ then false
    else if candidate.counters.n != best.counters.n then candidate.counters.n < best.counters.n
    else
      var cd, bd := Abs(candidate.vcoHz - PREFERRED_VCO_HZ), Abs(best.vcoHz - PREFERRED_VCO_HZ);
      if cd < bd - EPS_HZ then true
      else if cd > bd + EPS_HZ then false
      else if candidate.counters.m != best.counters.m then candidate.counters.m < best.counters.m
      else candidate.counters.c < best.counters.c
  }

  // ----- the comparison on achievable frequencies

  /** `is_better` between two counter settings for the same request. */
  ghost predicate Beats(x: Counters, y: Counters, requested: real)
    requires IsStrict(x) && IsStrict(y) && requested > 0.0
  {
    IsBetter(MakeParameters(x, requested), MakeParameters(y, requested))
  }

  ghost function Error(k: Counters, requested: real): real
    requires IsStrict(k)
  {
    Abs(Output(k) - requested)
  }

  lemma DivMul(x: real, y: real)
    requires y != 0.0
    ensures x / y * y == x
  {
  }

  lemma RealProduct(x: real, y: real, x': real, y': real)
    requires 0.0 <= x <= x' && 0.0 <= y <= y'
    ensures x * y <= x' * y'
  {
    assert x * y <= x' * y <= x' * y';
  }

  /** The 5 MHz floor of the phase detector leaves only N = 1..10. */
  lemma SmallN(k: Counters)
    requires IsStrict(k)
    ensures k.n <= 10
  {
    DivMul(REFERENCE_HZ, k.n as real);
    RealProduct(PFD_MIN_HZ, k.n as real, Pfd(k.n), k.n as real);
  }

  lemma OutputTimesCounters(k: Counters)
    requires IsStrict(k)
    ensures Output(k) * (k.n * k.c) as real == REFERENCE_HZ * k.m as real
  {
    var n, m, c := k.n as real, k.m as real, k.c as real;
    DivMul(REFERENCE_HZ, n);
    DivMul(Vco(k), c);
    assert (k.n * k.c) as real == n * c;
    assert Output(k) * (n * c) == (Output(k) * c) * n == Vco(k) * n;
    assert Vco(k) * n == (Pfd(k.n) * n) * m;
  }

  lemma ProductBound(x: int, y: int, xMax: int, yMax: int)
    requires 1 <= x <= xMax && 1 <= y <= yMax
    ensures 1 <= x * y <= xMax * yMax
  {
    assert x * y <= xMax * y <= xMax * yMax;
  }

  /** A strict setting's output is 50 MHz times a fraction with a small denominator. */
  lemma OutputFraction(k: Counters) returns (d: int)
    requires IsStrict(k)
    ensures 1 <= d <= 5100 && Output(k) * d as real == REFERENCE_HZ * k.m as real
  {
    SmallN(k);
    OutputTimesCounters(k);
    ProductBound(k.n, k.c, 10, 510);
    d := k.n * k.c;
  }

  /** Two different achievable output frequencies are more than 1 Hz apart. */
  lemma FrequenciesSeparated(x: Counters, y: Counters)
    requires IsStrict(x) && IsStrict(y) && Output(x) != Output(y)
    ensures Abs(Output(x) - Output(y)) > 1.0
  {
    var dx := OutputFraction(x);
    var dy := OutputFraction(y);
    FractionsSeparated(Output(x), Output(y), dx, dy, x.m, y.m);
  }

  lemma FractionsSeparated(fx: real, fy: real, dx: int, dy: int, mx: int, my: int)
    requires 1 <= dx <= 5100 && 1 <= dy <= 5100 && fx != fy
    requires fx * dx as real == REFERENCE_HZ * mx as real && fy * dy as real == REFERENCE_HZ * my as real
    ensures Abs(fx - fy) > 1.0
  {
    ProductBound(dx, dy, 5100, 5100);
    var k := mx * dy - my * dx;
    assert k as real == mx as real * dy as real - my as real * dx as real;
    CrossMultiply(fx, fy, dx as real, dy as real, mx as real, my as real, k as real);
    assert (dx * dy) as real == dx as real * dy as real;
    NumeratorSeparates(fx - fy, (dx * dy) as real, k);
  }

  lemma CrossMultiply(fx: real, fy: real, dx: real, dy: real, mx: real, my: real, k: real)
    requires fx * dx == REFERENCE_HZ * mx && fy * dy == REFERENCE_HZ * my && k == mx * dy - my * dx
    ensures (fx - fy) * (dx * dy) == REFERENCE_HZ * k
  {
    assert (fx - fy) * (dx * dy) == (fx * dx) * dy - (fy * dy) * dx;
    assert REFERENCE_HZ * k == (REFERENCE_HZ * mx) * dy - (REFERENCE_HZ * my) * dx;
  }

  lemma NumeratorSeparates(diff: real, d: real, k: int)
    requires diff != 0.0 && 1.0 <= d <= 26_010_000.0 && diff * d == REFERENCE_HZ * k as real
    ensures Abs(diff) > 1.0
  {
    var size := Abs(diff);
    assert size * d == Abs(diff * d);
    assert size * d > 0.0;
    assert size * d >= REFERENCE_HZ;
    if size <= 1.0 { RealProduct(size, d, 1.0, 26_010_000.0); }
  }

  /**
    The epsilon tie on errors is an equivalence after all: two achievable frequencies on the
    same side of the request tie only when they are equal, and there are only two sides.
  */
  lemma TieIsTransitive(x: Counters, y: Counters, z: Counters, requested: real)
    requires IsStrict(x) && IsStrict(y) && IsStrict(z)
    requires Abs(Error(x, requested) - Error(y, requested)) <= EPS_HZ
    requires Abs(Error(y, requested) - Error(z, requested)) <= EPS_HZ
    ensures Abs(Error(x, requested) - Error(z, requested)) <= EPS_HZ
  {
    if Output(x) != Output(y) { FrequenciesSeparated(x, y); }
    if Output(y) != Output(z) { FrequenciesSeparated(y, z); }
    if Output(x) != Output(z) { FrequenciesSeparated(x, z); }
  }

  /** For one N, two settings tie on VCO distance only when the distances are equal. */
  lemma VcoDistanceExact(x: Counters, y: Counters)
    requires IsStrict(x) && IsStrict(y) && x.n == y.n
    ensures var dx, dy := Abs(Vco(x) - PREFERRED_VCO_HZ), Abs(Vco(y) - PREFERRED_VCO_HZ);
      dx == dy || Abs(dx - dy) > 1.0
  {
    var kx := VcoDistance(x);
    var ky := VcoDistance(y);
    DistancesApart(Pfd(x.n), kx, ky, Abs(Vco(x) - PREFERRED_VCO_HZ), Abs(Vco(y) - PREFERRED_VCO_HZ));
  }

  lemma DistancesApart(p: real, kx: int, ky: int, dx: real, dy: real)
    requires p >= PFD_MIN_HZ && dx == p * kx as real && dy == p * ky as real
    ensures dx == dy || Abs(dx - dy) > 1.0
  {
    assert p * (kx - ky) as real == p * kx as real - p * ky as real;
    ScaledStep(p, kx - ky);
  }

  lemma ScaledStep(p: real, k: int)
    requires p >= PFD_MIN_HZ
    ensures k == 0 ==> p * k as real == 0.0
    ensures k != 0 ==> Abs(p * k as real) > 1.0
  {
    if k > 0 { assert p * k as real >= p * 1.0; }
    if k < 0 { assert p * k as real <= p * -1.0; }
  }

  /** The distance to the preferred VCO frequency is a whole number of PFD steps. */
  lemma VcoDistance(k: Counters) returns (steps: int)
    requires IsStrict(k)
    ensures Abs(Vco(k) - PREFERRED_VCO_HZ) == Pfd(k.n) * steps as real
  {
    var p := Pfd(k.n);
    DivMul(REFERENCE_HZ, k.n as real);
    assert PREFERRED_VCO_HZ == 20.0 * (p * k.n as real) == p * (20 * k.n) as real;
    steps := k.m - 20 * k.n;
    assert Vco(k) - PREFERRED_VCO_HZ == p * steps as real;
    if Vco(k) < PREFERRED_VCO_HZ {
      assert -(p * steps as real) == p * (-steps) as real;
      steps := -steps;
    }
  }

  /** On achievable settings `is_better` is a strict total order ... */
  lemma BeatsIsTotal(x: Counters, y: Counters, requested: real)
    requires IsStrict(x) && IsStrict(y) && requested > 0.0
    ensures x != y ==> (Beats(x, y, requested) <==> !Beats(y, x, requested))
    ensures !Beats(x, x, requested)
  {
    if x.n == y.n { VcoDistanceExact(x, y); }
  }

  /** ... even though comparing with an epsilon is not transitive on arbitrary reals. */
  lemma BeatsIsTransitive(x: Counters, y: Counters, z: Counters, requested: real)
    requires IsStrict(x) && IsStrict(y) && IsStrict(z) && requested > 0.0
    requires Beats(x, y, requested) && Beats(y, z, requested)
    ensures Beats(x, z, requested)
  {
    var ex, ey, ez := Error(x, requested), Error(y, requested), Error(z, requested);
    if Abs(ex - ey) <= EPS_HZ && Abs(ey - ez) <= EPS_HZ {
      TieIsTransitive(x, y, z, requested);
      if x.n == y.n { VcoDistanceExact(x, y); }
      if y.n == z.n { VcoDistanceExact(y, z); }
      if x.n == z.n { VcoDistanceExact(x, z); }
    } else {
      // one comparison is decided by error alone, so the other cannot undo it
      if Abs(ex - ez) <= EPS_HZ {
        if Abs(ex - ey) <= EPS_HZ { TieIsTransitive(y, x, z, requested); }
        if Abs(ey - ez) <= EPS_HZ { TieIsTransitive(x, z, y, requested); }
      }
    }
  }

  // ----- the search

  /** Strict settings that the loops reach before (n, m, c). */
  ghost predicate Before(x: Counters, n: int, m: int, c: int)
  {
    x.n < n || (x.n == n && (x.m < m || (x.m == m && x.c < c)))
  }

  /** `best` is the winner over the settings the loops have reached. */
  ghost predicate Winner(best: Option<Parameters>, requested: real, n: int, m: int, c: int)
    requires requested > 0.0
  {
    match best
    case None => forall x :: IsStrict(x) ==> !Before(x, n, m, c)
    case Some(p) =>
      && IsStrict(p.counters) && p == MakeParameters(p.counters, requested)
      && Before(p.counters, n, m, c)
      && forall x :: IsStrict(x) && Before(x, n, m, c) && x != p.counters ==> Beats(p.counters, x, requested)
  }

  /** Moving the position over settings that are not strict changes nothing. */
  lemma SkipTo(best: Option<Parameters>, requested: real, n: int, m: int, c: int, n': int, m': int, c': int)
    requires requested > 0.0 && Winner(best, requested, n, m, c)
    requires forall x :: IsStrict(x) ==> (Before(x, n, m, c) <==> Before(x, n', m', c'))
    ensures Winner(best, requested, n', m', c')
  {
  }

  /** Meeting one more strict setting. */
  lemma Meet(best: Option<Parameters>, k: Counters, requested: real)
    requires requested > 0.0 && IsStrict(k) && Winner(best, requested, k.n, k.m, k.c)
    ensures var p := MakeParameters(k, requested);
      Winner(if best.None? || IsBetter(p, best.value) then Some(p) else best, requested, k.n, k.m, k.c + 1)
  {
    var p := MakeParameters(k, requested);
    if best.Some? {
      var b := best.value.counters;
      BeatsIsTotal(k, b, requested);
      forall x | IsStrict(x) && Before(x, k.n, k.m, k.c + 1)
        ensures x == k || Before(x, k.n, k.m, k.c)
      {
      }
      if Beats(k, b, requested) {
        forall x | IsStrict(x) && Before(x, k.n, k.m, k.c + 1) && x != k
          ensures Beats(k, x, requested)
        {
          if x != b { BeatsIsTransitive(k, b, x, requested); }
        }
      }
    }
  }

  lemma VcoMonotone(n: int, m: int, m': int, c: int, c': int)
    requires n > 0 && m <= m'
    ensures Vco(Counters(n, m, c)) <= Vco(Counters(n, m', c'))
  {
    DivMul(REFERENCE_HZ, n as real);
    var p := Pfd(n);
    assert p >= 0.0;
    assert p * m as real <= p * m' as real;
  }

  ghost function VcoOffset(k: Counters): real
    requires k.n > 0
  {
    Abs(Vco(k) - PREFERRED_VCO_HZ)
  }

  /** Smaller N, then a VCO nearer to 1 GHz, then smaller M, then smaller C. */
  ghost predicate Precedes(x: Counters, y: Counters)
    requires x.n > 0 && y.n > 0
  {
    || x.n < y.n
    || (x.n == y.n && VcoOffset(x) < VcoOffset(y))
    || (x.n == y.n && VcoOffset(x) == VcoOffset(y) && x.m < y.m)
    || (x.n == y.n && VcoOffset(x) == VcoOffset(y) && x.m == y.m && x.c < y.c)
  }

  /** What wins over x: a smaller error, or an equal one up to a billionth of a hertz and precedence. */
  ghost predicate WinsOver(k: Counters, x: Counters, requested: real)
    requires IsStrict(k) && IsStrict(x)
  {
    || Error(k, requested) < Error(x, requested) - EPS_HZ
    || (Abs(Error(k, requested) - Error(x, requested)) <= EPS_HZ && Precedes(k, x))
  }

  lemma BeatsIff(k: Counters, x: Counters, requested: real)
    requires IsStrict(k) && IsStrict(x) && requested > 0.0
    ensures Beats(k, x, requested) <==> WinsOver(k, x, requested)
  {
    if k.n == x.n { VcoDistanceExact(k, x); }
  }

  /** The figures of a setting, by multiplication only. */
  ghost predicate Figures(p: Parameters, requested: real)
  {
    var (n, m, c) := (p.counters.n as real, p.counters.m as real, p.counters.c as real);
    && p.requestedHz == requested && p.errorHz == p.actualHz - requested
    && p.pfdHz * n == REFERENCE_HZ && p.vcoHz == p.pfdHz * m && p.actualHz * c == p.vcoHz
    && p.errorPpm * requested == p.errorHz * 1_000_000.0
  }

  lemma MadeFigures(k: Counters, requested: real)
    requires k.n > 0 && k.c > 0 && requested > 0.0
    ensures Figures(MakeParameters(k, requested), requested)
  {
    DivMul(REFERENCE_HZ, k.n as real);
    DivMul(Vco(k), k.c as real);
    DivMul(Output(k) - requested, requested);
    var p := MakeParameters(k, requested);
    assert p.errorPpm * requested == (p.errorHz / requested * requested) * 1_000_000.0;
  }

  /**
    `calculate`: no result exactly when the request is outside the reachable band; otherwise the
    strict setting that beats every other strict setting, whose error is therefore within
    EPS_HZ of the smallest possible one.
  */
  method Calculate(requested: real) returns (best: Option<Parameters>)
    ensures best.None? <==> requested < OUTPUT_MIN_HZ || requested > OUTPUT_MAX_HZ
    ensures best.Some? ==>
      && requested > 0.0 && IsStrict(best.value.counters)
      && best.value == MakeParameters(best.value.counters, requested) && Figures(best.value, requested)
      && (forall x :: IsStrict(x) && x != best.value.counters ==> Beats(best.value.counters, x, requested))
      && (forall x :: IsStrict(x) && x != best.value.counters ==> WinsOver(best.value.counters, x, requested))
      && (forall x :: IsStrict(x) ==> Abs(best.value.errorHz) <= Error(x, requested) + EPS_HZ)
  {
    if requested < OUTPUT_MIN_HZ || requested > OUTPUT_MAX_HZ { return None; }
    best := None;
    for n := COUNTER_MIN to COUNTER_MAX + 1
      invariant Winner(best, requested, n, COUNTER_MIN, COUNTER_MIN)
    {
      best := SearchM(requested, n, best);
    }
    assert IsStrict(Counters(1, 12, 1));
    assert forall x :: IsStrict(x) ==> Before(x, COUNTER_MAX + 1, COUNTER_MIN, COUNTER_MIN);
    var k := best.value.counters;
    MadeFigures(k, requested);
    forall x | IsStrict(x) && x != k ensures WinsOver(k, x, requested) { BeatsIff(k, x, requested); }
  }

  /** Once the VCO limit is passed, no larger M is strict, so the loop may break. */
  lemma NothingAbove(n: int, m: int)
    requires n > 0 && Pfd(n) * m as real > VCO_MAX_HZ
    ensures forall x :: IsStrict(x) && x.n == n ==> x.m < m
  {
    forall x | IsStrict(x) && x.n == n
      ensures x.m < m
    {
      if x.m >= m { VcoMonotone(n, m, x.m, x.c, x.c); }
    }
  }

  lemma StrictForEveryC(n: int, m: int, c: int)
    requires IsStrict(Counters(n, m, COUNTER_MIN)) && InRange(c)
    ensures IsStrict(Counters(n, m, c))
  {
  }

  lemma EndOfRow(best: Option<Parameters>, requested: real, n: int, m: int)
    requires requested > 0.0 && Winner(best, requested, n, m, COUNTER_MAX + 1)
    ensures Winner(best, requested, n, m + 1, COUNTER_MIN)
  {
    SkipTo(best, requested, n, m, COUNTER_MAX + 1, n, m + 1, COUNTER_MIN);
  }

  /** The innermost loop, for one N and M. */
  method SearchC(requested: real, n: int, m: int, best0: Option<Parameters>) returns (best: Option<Parameters>)
    requires requested > 0.0 && IsStrict(Counters(n, m, COUNTER_MIN))
    requires Winner(best0, requested, n, m, COUNTER_MIN)
    ensures Winner(best, requested, n, m + 1, COUNTER_MIN)
  {
    best := best0;
    for c := COUNTER_MIN to COUNTER_MAX + 1
      invariant Winner(best, requested, n, m, c)
    {
      StrictForEveryC(n, m, c);
      Meet(best, Counters(n, m, c), requested);
      var candidate := MakeParameters(Counters(n, m, c), requested);
      if best.None? || IsBetter(candidate, best.value) {
        best := Some(candidate);
      }
    }
    EndOfRow(best, requested, n, m);
  }

  /** One round of the M loop; past the VCO limit there is nothing more to find for this N. */
  method SearchRow(requested: real, n: int, m: int, best0: Option<Parameters>)
    returns (best: Option<Parameters>, done: bool)
    requires requested > 0.0 && InRange(n) && InRange(m) && PFD_MIN_HZ <= Pfd(n) <= PFD_MAX_HZ
    requires Winner(best0, requested, n, m, COUNTER_MIN)
    ensures if done then Winner(best, requested, n + 1, COUNTER_MIN, COUNTER_MIN)
            else Winner(best, requested, n, m + 1, COUNTER_MIN)
  {
    best, done := best0, false;
    var vco := Vco(Counters(n, m, COUNTER_MIN));
    if vco < VCO_MIN_HZ {
      VcoBelow(best, requested, n, m);
    } else if vco > VCO_MAX_HZ {
      VcoAbove(best, requested, n, m);
      done := true;
    } else {
      best := SearchC(requested, n, m, best);
    }
  }

  /** The M and C loops, for one N. */
  method SearchM(requested: real, n: int, best0: Option<Parameters>) returns (best: Option<Parameters>)
    requires requested > 0.0 && InRange(n) && Winner(best0, requested, n, COUNTER_MIN, COUNTER_MIN)
    ensures Winner(best, requested, n + 1, COUNTER_MIN, COUNTER_MIN)
  {
    best := best0;
    var pfd := Pfd(n);
    if pfd < PFD_MIN_HZ || pfd > PFD_MAX_HZ {
      PfdOutside(best, requested, n);
      return;
    }
    for m := COUNTER_MIN to COUNTER_MAX + 1
      invariant Winner(best, requested, n, m, COUNTER_MIN)
    {
      var done;
      best, done := SearchRow(requested, n, m, best);
      if done { return; }
    }
    RowDone(best, requested, n);
  }

  // positions at which the search over m moves on

  lemma PfdOutside(best: Option<Parameters>, requested: real, n: int)
    requires requested > 0.0 && InRange(n) && Winner(best, requested, n, COUNTER_MIN, COUNTER_MIN)
    requires Pfd(n) < PFD_MIN_HZ || Pfd(n) > PFD_MAX_HZ
    ensures Winner(best, requested, n + 1, COUNTER_MIN, COUNTER_MIN)
  {
    SkipTo(best, requested, n, COUNTER_MIN, COUNTER_MIN, n + 1, COUNTER_MIN, COUNTER_MIN);
  }

  lemma VcoBelow(best: Option<Parameters>, requested: real, n: int, m: int)
    requires requested > 0.0 && InRange(n) && Winner(best, requested, n, m, COUNTER_MIN)
    requires Vco(Counters(n, m, COUNTER_MIN)) < VCO_MIN_HZ
    ensures Winner(best, requested, n, m + 1, COUNTER_MIN)
  {
    SkipTo(best, requested, n, m, COUNTER_MIN, n, m + 1, COUNTER_MIN);
  }

  lemma VcoAbove(best: Option<Parameters>, requested: real, n: int, m: int)
    requires requested > 0.0 && InRange(n) && Winner(best, requested, n, m, COUNTER_MIN)
    requires Vco(Counters(n, m, COUNTER_MIN)) > VCO_MAX_HZ
    ensures Winner(best, requested, n + 1, COUNTER_MIN, COUNTER_MIN)
  {
    NothingAbove(n, m);
    SkipTo(best, requested, n, m, COUNTER_MIN, n + 1, COUNTER_MIN, COUNTER_MIN);
  }

  lemma RowDone(best: Option<Parameters>, requested: real, n: int)
    requires requested > 0.0 && InRange(n) && Winner(best, requested, n, COUNTER_MAX + 1, COUNTER_MIN)
    ensures Winner(best, requested, n + 1, COUNTER_MIN, COUNTER_MIN)
  {
    SkipTo(best, requested, n, COUNTER_MAX + 1, COUNTER_MIN, n + 1, COUNTER_MIN, COUNTER_MIN);
  }
}
