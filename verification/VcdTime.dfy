/**
  Timestamp scaling of the VCD reader: a 64-bit multiply-then-divide that never forms the
  128-bit product. All run-time values have the 64-bit type `u64`, so the verifier also shows
  that no intermediate leaves that range.
*/
module VcdTime {
  import opened Wrappers

  const U64_MAX: int := U64_RANGE - 1

  newtype u64 = x: int | 0 <= x < 0x1_0000_0000_0000_0000

  /** `checked_mul_u64`: succeeds exactly when the product fits. */
  function CheckedMul(a: u64, b: u64): (r: Result<u64>)
    ensures r.Ok? <==> a as int * b as int <= U64_MAX
    ensures r.Ok? ==> r.value as int == a as int * b as int
  {
    if a != 0 && b > (0xFFFF_FFFF_FFFF_FFFF as u64) / a then
      MulExceeds(a as int, b as int);
      Err
    else
      MulFits(a as int, b as int);
      Ok(a * b)
  }

  lemma MulExceeds(a: nat, b: nat)
    requires a != 0 && b > U64_MAX / a
    ensures a * b > U64_MAX
  {
    var q := U64_MAX / a;
    assert U64_MAX < a * (q + 1);
    assert a * (q + 1) <= a * b by { MulMonotone(a, q + 1, b); }
  }

  lemma MulFits(a: nat, b: nat)
    requires a == 0 || b <= U64_MAX / a
    ensures a * b <= U64_MAX
  {
    if a != 0 {
      MulMonotone(a, b, U64_MAX / a);
      assert a * (U64_MAX / a) <= U64_MAX;
    }
  }

  lemma MulMonotone(a: nat, x: int, y: int)
    requires x <= y
    ensures a * x <= a * y
  {
    assert a * y - a * x == a * (y - x);
  }

  lemma QuotientUnique(n: nat, d: nat, q: int, r: int)
    requires d > 0 && 0 <= r < d && n == q * d + r
    ensures n / d == q
  {
    var q0, r0 := n / d, n % d;
    assert n == q0 * d + r0;
    assert (q - q0) * d == r0 - r;
    if q > q0 { MulMonotone(d, 1, q - q0); }
    if q < q0 { MulMonotone(d, 1, q0 - q); }
  }

  lemma QuotientMonotone(n: nat, m: nat, d: nat)
    requires d > 0 && n <= m
    ensures n / d <= m / d
  {
    var q, q' := n / d, m / d;
    if q > q' { MulMonotone(d, q' + 1, q); }
  }

  /** `add_q`: adds, replacing anything above `limit` by the sentinel `limit + 1`. */
  function SaturatingAdd(q: u64, add: u64, limit: u64): (r: u64)
    requires limit < 0xFFFF_FFFF_FFFF_FFFF && q <= limit + 1
    ensures r as int == if q as int + add as int <= limit as int then q as int + add as int else limit as int + 1
  {
    if add >= limit + 1 || q > limit - add then limit + 1 else q + add
  }

  /** The doubled quotient term, saturated in the same way. */
  function SaturatingDouble(q: u64, carry: u64, limit: u64): (r: u64)
    requires limit < 0xFFFF_FFFF_FFFF_FFFF && carry <= 1
    ensures var exact := 2 * (q as int) + carry as int;
      r as int == if exact <= limit as int then exact else limit as int + 1
  {
    if q >= limit + 1 || q > (limit + 1 - carry) / 2 then limit + 1 else q * 2 + carry
  }

  /** What the run-time quotient says about the exact one. */
  ghost predicate Saturates(q: u64, exact: int, limit: u64)
  {
    q as int == exact || (q > limit && exact > limit as int)
  }

  /** q and r are the quotient and remainder of a*p by d. */
  ghost predicate Divides(a: int, p: int, d: int, q: int, r: int)
  {
    0 <= r < d && a * p == q * d + r
  }

  /** Sum of two divisions with remainder, as one step of the shift-and-add loop forms it. */
  lemma AddDivisions(a: int, p: int, w: int, d: int, q: int, r: int, tq: int, tr: int)
    requires Divides(a, p, d, q, r) && Divides(a, w, d, tq, tr)
    ensures if r >= d - tr then Divides(a, p + w, d, q + tq + 1, r - (d - tr)) else Divides(a, p + w, d, q + tq, r + tr)
  {
    assert a * (p + w) == a * p + a * w;
    assert (q + tq) * d == q * d + tq * d;
    assert (q + tq + 1) * d == (q + tq) * d + d;
  }

  /** p is the value of the bits already read, and `bits` those still to be read, of weight w. */
  ghost predicate Unread(b: int, p: int, bits: int, w: int)
  {
    0 <= p && 0 < w && 0 <= bits && b == p + bits * w
  }

  lemma SplitBits(b: int, p: int, bits: int, w: int)
    requires Unread(b, p, bits, w)
    ensures p <= b && Unread(b, if bits % 2 == 1 then p + w else p, bits / 2, 2 * w)
    ensures bits == 0 ==> b == p
    ensures bits % 2 == 1 ==> p + w <= b
    ensures bits / 2 == 0 ==> b == if bits % 2 == 1 then p + w else p
  {
    var h := bits / 2;
    assert 0 <= h * (2 * w);
    if bits % 2 == 1 {
      assert bits * w == (2 * h + 1) * w == h * (2 * w) + w;
    } else {
      assert bits * w == (2 * h) * w == h * (2 * w);
    }
  }

  /** A prefix of the bits already above the limit puts the whole product above it. */
  lemma PrefixExceeds(a: nat, b: nat, p: nat, d: nat, q: int, r: int, limit: int)
    requires p <= b && Divides(a, p, d, q, r) && q > limit
    ensures d > 0 && a * b / d > limit
  {
    MulMonotone(a, p, b);
    QuotientUnique(a * p, d, q, r);
    QuotientMonotone(a * p, a * b, d);
  }

  lemma DividesQuotient(a: nat, b: nat, d: int, q: int, r: int)
    requires Divides(a, b, d, q, r)
    ensures a * b / d == q
  {
    QuotientUnique(a * b, d, q, r);
  }

  /** Adds one remainder to another below `divisor`, reporting the carry into the quotient. */
  method AddRemainders(r: u64, t: u64, divisor: u64) returns (sum: u64, carry: u64)
    requires r < divisor && t < divisor
    ensures if r as int >= divisor as int - t as int
      then carry == 1 && sum as int == r as int - (divisor as int - t as int)
      else carry == 0 && sum as int == r as int + t as int
  {
    if r >= divisor - t {
      sum, carry := r - (divisor - t), 1;
    } else {
      sum, carry := r + t, 0;
    }
  }

  /** One addition into the accumulated quotient and remainder. */
  method Accumulate(q: u64, r: u64, termQ: u64, termR: u64, divisor: u64, limit: u64,
                    ghost a: int, ghost p: int, ghost w: int, ghost exact: int)
    returns (q': u64, r': u64, ghost total: int)
    requires limit < 0xFFFF_FFFF_FFFF_FFFF && q <= limit
    requires Divides(a, p, divisor as int, q as int, r as int)
    requires Divides(a, w, divisor as int, exact, termR as int) && Saturates(termQ, exact, limit) && exact >= 0
    ensures Divides(a, p + w, divisor as int, total, r' as int) && Saturates(q', total, limit)
  {
    AddDivisions(a, p, w, divisor as int, q as int, r as int, exact, termR as int);
    var carry;
    q' := SaturatingAdd(q, termQ, limit);
    r', carry := AddRemainders(r, termR, divisor);
    if carry == 1 { q' := SaturatingAdd(q', 1, limit); }
    total := q as int + exact + carry as int;
  }

  /** Doubles the term for the next bit. */
  method DoubleTerm(termQ: u64, termR: u64, divisor: u64, limit: u64, ghost a: int, ghost w: int, ghost exact: int)
    returns (q': u64, r': u64, ghost exact': int)
    requires limit < 0xFFFF_FFFF_FFFF_FFFF && exact >= 0
    requires Divides(a, w, divisor as int, exact, termR as int) && Saturates(termQ, exact, limit)
    ensures Divides(a, 2 * w, divisor as int, exact', r' as int) && Saturates(q', exact', limit) && exact' >= 0
  {
    AddDivisions(a, w, w, divisor as int, exact, termR as int, exact, termR as int);
    assert w + w == 2 * w;
    var carry;
    r', carry := AddRemainders(termR, termR, divisor);
    q' := SaturatingDouble(termQ, carry, limit);
    exact' := 2 * exact + carry as int;
  }

  /**
    `mul_div_floor_capped`: the exact floor of a*b/divisor when it is at most `limit`,
    and an exception exactly when it is larger or the arguments are rejected.
  */
  method MulDivFloorCapped(a: u64, b: u64, divisor: u64, limit: u64) returns (res: Result<u64>)
    ensures res.Ok? <==>
      divisor != 0 && limit != 0xFFFF_FFFF_FFFF_FFFF && a as int * b as int / divisor as int <= limit as int
    ensures res.Ok? ==> res.value as int == a as int * b as int / divisor as int
  {
    if divisor == 0 || limit == 0xFFFF_FFFF_FFFF_FFFF { return Err; }
    var q: u64, r: u64 := 0, 0;
    var termQ, termR := a / divisor, a % divisor;
    var bits := b;
    ghost var A, B, D := a as int, b as int, divisor as int;
    ghost var p, w, exact := 0, 1, A / D;
    assert Divides(A, 1, D, exact, termR as int);

    while bits != 0
      invariant Unread(B, p, bits as int, w)
      invariant q <= limit && Divides(A, p, D, q as int, r as int)
      invariant exact >= 0 && Divides(A, w, D, exact, termR as int) && Saturates(termQ, exact, limit)
      decreases bits
    {
      SplitBits(B, p, bits as int, w);
      if bits % 2 == 1 {
        ghost var total;
        q, r, total := Accumulate(q, r, termQ, termR, divisor, limit, A, p, w, exact);
        p := p + w;
        if q > limit {
          PrefixExceeds(A, B, p, D, total, r as int, limit as int);
          return Err;
        }
      }
      if bits / 2 == 0 {
        DividesQuotient(A, B, D, q as int, r as int);
        return Ok(q);
      }
      termQ, termR, exact := DoubleTerm(termQ, termR, divisor, limit, A, w, exact);
      w := 2 * w;
      bits := bits / 2;
    }
    DividesQuotient(A, B, D, q as int, r as int);
    return Ok(q);
  }

  datatype Timescale = Timescale(numeratorNs: u64, denominator: u64)

  /**
    The arithmetic of `parse_timestamp`: the stream position, in clock periods, of file time `v`.
    It is the exact floor, and it is refused exactly when it does not fit a 32-bit counter or
    the scale itself is unusable.
  */
  method ScaleTimestamp(v: u64, scale: u64, ts: Timescale) returns (res: Result<u64>)
    requires scale <= 0xFFFF_FFFF
    ensures res == Scaled(v, scale, ts)
  {
    if scale == 0 || ts.denominator == 0 { return Err; }
    var den := CheckedMul(scale, ts.denominator);
    if den.Err? { return Err; }
    assert den.value > 0 by { ProductPositive(scale as int, ts.denominator as int); }
    res := MulDivFloorCapped(v, ts.numeratorNs, den.value, 0xFFFF_FFFF);
  }

  lemma ProductPositive(x: int, y: int)
    requires x > 0 && y > 0
    ensures x * y > 0
  {
  }

  /** Independent statement of the scaled time, with unbounded integers. */
  ghost function Scaled(v: u64, scale: u64, ts: Timescale): (r: Result<u64>)
  {
    var den := scale as int * ts.denominator as int;
    if den <= 0 || den > U64_MAX then Err
    else
      var t := v as int * ts.numeratorNs as int / den;
      if 0 <= t < U32_RANGE then Ok(t as u64) else Err
  }

  /** With the writer's own scale, file time and stream position coincide. */
  lemma MatchedScaleIsIdentity(v: u64, scale: u64, ts: Timescale)
    requires scale > 0 && ts.denominator > 0
    requires ts.numeratorNs as int == scale as int * ts.denominator as int
    ensures Scaled(v, scale, ts) == if v <= 0xFFFF_FFFF then Ok(v) else Err
  {
    var den := scale as int * ts.denominator as int;
    ProductPositive(scale as int, ts.denominator as int);
    QuotientUnique(v as int * den, den, v as int, 0);
  }

  /** Scaling keeps the order of timestamps, so a monotone file gives monotone positions. */
  lemma ScalingIsMonotone(v: u64, v': u64, scale: u64, ts: Timescale)
    requires v <= v' && Scaled(v', scale, ts).Ok?
    ensures Scaled(v, scale, ts).Ok? && Scaled(v, scale, ts).value <= Scaled(v', scale, ts).value
  {
    var den := scale as int * ts.denominator as int;
    var n, t, t' := ts.numeratorNs as int, v as int, v' as int;
    MulMonotone(n, t, t');
    ProductNotNegative(t, n);
    QuotientMonotone(t * n, t' * n, den);
  }

  lemma ProductNotNegative(x: int, y: int)
    requires x >= 0 && y >= 0
    ensures x * y >= 0
  {
  }
}
