/** Converting integers to doubles never reverses their order. */
module FloatOrder {
  import opened Bytes
  import opened Values

  const UNIT: nat := 0x10_0000_0000_0000

  /** Quotient and remainder rounded to nearest, ties to even. */
  function Nearest(q: nat, r: nat, unit: nat): nat {
    if 2 * r > unit || (2 * r == unit && q % 2 == 1) then q + 1 else q
  }

  /** Rounding to nearest even, one unit in the last place being `unit`. */
  function Rounded(m: nat, unit: nat): nat
    requires unit > 0
  {
    Nearest(m / unit, m % unit, unit)
  }

  lemma NearestMonotone(p: nat, r: nat, q: nat, s: nat, unit: nat)
    requires p < q || (p == q && r <= s)
    ensures Nearest(p, r, unit) <= Nearest(q, s, unit)
  {
  }

  lemma QuotientOrder(m: nat, n: nat, p: nat, r: nat, q: nat, s: nat, unit: nat)
    requires m <= n && m == p * unit + r && n == q * unit + s && r < unit && s < unit
    ensures p < q || (p == q && r <= s)
  {
    if q < p { MulMonotone(q + 1, p, unit); }
  }

  lemma RoundedMonotone(m: nat, n: nat, unit: nat)
    requires unit > 0 && m <= n
    ensures Rounded(m, unit) <= Rounded(n, unit)
  {
    var p, r, q, s := m / unit, m % unit, n / unit, n % unit;
    QuotientOrder(m, n, p, r, q, s, unit);
    NearestMonotone(p, r, q, s, unit);
  }

  /** The significand with its leading bit, scaled to 52 fraction bits. */
  function Significand(m: nat): nat
    requires 0 < m <= SIGN64
  {
    var e := Log2(m);
    if e <= 52 then m * Pow2(52 - e) else Rounded(m, Pow2(e - 52))
  }

  lemma NatIsSignificand(m: nat)
    requires 0 < m <= SIGN64
    ensures NatToF64(m) == (Log2(m) + 1023) * UNIT + Significand(m) - UNIT
    ensures UNIT <= Significand(m) <= 2 * UNIT
  {
    var e := Log2(m);
    if e <= 52 {
      ScaleBound(m, e, 52 - e);
    } else {
      QuotientBound(m, e);
    }
  }

  lemma LogMonotone(m: nat, n: nat)
    requires 0 < m <= n
    ensures Log2(m) <= Log2(n)
  {
    if Log2(n) < Log2(m) {
      Pow2Monotone(Log2(n) + 1, Log2(m));
    }
  }

  lemma SignificandMonotone(m: nat, n: nat)
    requires 0 < m <= n <= SIGN64 && Log2(m) == Log2(n)
    ensures Significand(m) <= Significand(n)
  {
    var e := Log2(m);
    if e <= 52 {
      MulMonotone(m, n, Pow2(52 - e));
    } else {
      RoundedMonotone(m, n, Pow2(e - 52));
    }
  }

  lemma NatMonotone(m: nat, n: nat)
    requires 0 < m <= n <= SIGN64
    ensures NatToF64(m) <= NatToF64(n)
  {
    NatIsSignificand(m);
    NatIsSignificand(n);
    LogMonotone(m, n);
    if Log2(m) == Log2(n) {
      SignificandMonotone(m, n);
    }
  }

  /** A converted integer is a finite number. */
  lemma NatFinite(m: nat)
    requires 0 < m <= SIGN64
    ensures 0 < NatToF64(m) < INF64
  {
    NatIsSignificand(m);
    LogBound(m);
  }

  lemma FiniteIsNumber(n: nat)
    requires n < INF64
    ensures !IsNan64(n) && !IsNan64(SIGN64 + n)
  {
    assert n % SIGN64 == n && (SIGN64 + n) % SIGN64 == n;
  }

  lemma IntIsNumber(i: I64)
    ensures !IsNan64(IntToF64(i))
  {
    if i > 0 {
      NatFinite(i);
      FiniteIsNumber(NatToF64(i));
    } else if i < 0 {
      NatFinite(-(i as int));
      FiniteIsNumber(NatToF64(-(i as int)));
    } else {
      FiniteIsNumber(0);
    }
  }

  /** Order is kept, though neighbours may be rounded together. */
  lemma IntToF64Monotone(i: I64, j: I64)
    requires i <= j
    ensures Magnitude64(IntToF64(i)) <= Magnitude64(IntToF64(j))
  {
    if i > 0 { NatMonotone(i, j); }
    if j < 0 { NatMonotone(-(j as int), -(i as int)); }
    if j > 0 { NatFinite(j); }
    if i < 0 { NatFinite(-(i as int)); }
  }

  // ─── Doubles by magnitude ──────────────────────────────────────────────────

  /** The double of a magnitude; neighbouring doubles have neighbouring magnitudes. */
  function FloatOf(m: int): (f: F64)
    requires -INF64 <= m <= INF64
    ensures !IsNan64(f) && Magnitude64(f) == m
  {
    if m >= 0 then m else SIGN64 - m
  }

  /** Where a number stands among the doubles. */
  function MagnitudeOf(v: Value): Option<int> {
    match v
    case Int(i) => Some(Magnitude64(IntToF64(i)))
    case Float(f) => if IsNan64(f) then None else Some(Magnitude64(f))
    case _ => None
  }

  lemma FiniteMagnitude(n: nat)
    requires n < INF64
    ensures Magnitude64(n) == n && Magnitude64(SIGN64 + n) == -(n as int)
  {
  }

  lemma MagnitudeRange(v: Value)
    ensures MagnitudeOf(v).Some? ==> -INF64 <= MagnitudeOf(v).value <= INF64
    ensures v.Int? ==> -INF64 < MagnitudeOf(v).value < INF64 && !IsNan64(IntToF64(v.i))
  {
    if v.Int? && v.i != 0 {
      var m := if v.i > 0 then v.i else -(v.i as int);
      NatFinite(m);
      FiniteMagnitude(NatToF64(m));
      IntIsNumber(v.i);
    }
  }
}
