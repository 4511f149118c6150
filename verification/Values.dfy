/**
 The value type every stored datum has, with the two comparisons the engine
 uses: `==` (derived, so IEEE equality on floats) and the partial order of the
 range filters. Floats are their IEEE 754 bit patterns.
 */
module Values {
  import opened Bytes

  type I64 = i: int | -0x8000_0000_0000_0000 <= i < 0x8000_0000_0000_0000
  type F64 = n: int | 0 <= n < 0x1_0000_0000_0000_0000
  type F32 = n: int | 0 <= n < 0x1_0000_0000

  const MAX64: int := 0x7FFF_FFFF_FFFF_FFFF
  const MIN64: int := -0x8000_0000_0000_0000
  const SIGN64: int := 0x8000_0000_0000_0000
  const INF64: int := 0x7FF0_0000_0000_0000

  datatype Value =
    | Bool(b: bool)
    | Int(i: I64)
    | Float(f: F64)
    | Text(s: seq<Byte>)
    | Timestamp(micros: I64)
    | Bytestring(bytes: seq<Byte>)
    | List(items: seq<Value>)
    | Map(entries: map<string, Value>)
    | Null
    | Vector(floats: seq<F32>)

  type Fields = map<string, Value>

  // ─── IEEE comparison on bit patterns ───────────────────────────────────────

  /** Sign-magnitude reading of the bits: both zeros are 0, order is value order. */
  function Magnitude64(f: F64): int {
    if f < SIGN64 then f else SIGN64 - f
  }

  predicate IsNan64(f: F64) {
    f % SIGN64 > INF64
  }

  predicate F64Eq(a: F64, b: F64) {
    !IsNan64(a) && !IsNan64(b) && Magnitude64(a) == Magnitude64(b)
  }

  function F64Cmp(a: F64, b: F64): Option<Ordering> {
    if IsNan64(a) || IsNan64(b) then None else Some(IntCmp(Magnitude64(a), Magnitude64(b)))
  }

  predicate F32Eq(a: F32, b: F32) {
    var m := 0x8000_0000;
    && a % m <= 0x7F80_0000
    && b % m <= 0x7F80_0000
    && (if a < m then a else m - a) == (if b < m then b else m - b)
  }

  function Pow2(k: nat): (p: nat)
    ensures p > 0
  {
    if k == 0 then 1 else 2 * Pow2(k - 1)
  }

  /** Position of the leading one bit. */
  function Log2(m: nat): (e: nat)
    requires m > 0
    ensures Pow2(e) <= m < 2 * Pow2(e)
  {
    if m == 1 then 0 else Log2(m / 2) + 1
  }

  /** `i as f64`: nearest double, ties to even. */
  function IntToF64(i: I64): F64 {
    if i == 0 then 0
    else if i > 0 then NatToF64(i)
    else SIGN64 + NatToF64(-(i as int))
  }

  function NatToF64(m: nat): (f: nat)
    requires 0 < m <= SIGN64
    ensures f < SIGN64
  {
    var e := Log2(m);
    LogBound(m);
    var exponent := (e + 1023) * 0x10_0000_0000_0000;
    if e <= 52 then
      ScaleBound(m, e, 52 - e);
      exponent + m * Pow2(52 - e) - 0x10_0000_0000_0000
    else
      var unit := Pow2(e - 52);
      var q, r := m / unit, m % unit;
      QuotientBound(m, e);
      var up := 2 * r > unit || (2 * r == unit && q % 2 == 1);
      exponent + (if up then q + 1 else q) - 0x10_0000_0000_0000
  }

  lemma Pow2Add(a: nat, b: nat)
    ensures Pow2(a + b) == Pow2(a) * Pow2(b)
  {
    if a > 0 { Pow2Add(a - 1, b); }
  }

  lemma Pow2Monotone(a: nat, b: nat)
    requires a <= b
    ensures Pow2(a) <= Pow2(b)
  {
    if a < b { Pow2Monotone(a, b - 1); }
  }

  lemma Pow2Values()
    ensures Pow2(52) == 0x10_0000_0000_0000
    ensures Pow2(64) == 0x1_0000_0000_0000_0000
  {
    assert Pow2(8) == 0x100;
    assert Pow2(16) == 0x1_0000;
    assert Pow2(24) == 0x100_0000;
    assert Pow2(32) == 0x1_0000_0000;
    assert Pow2(40) == 0x100_0000_0000;
    assert Pow2(48) == 0x1_0000_0000_0000;
    assert Pow2(56) == 0x100_0000_0000_0000;
  }

  lemma LogBound(m: nat)
    requires 0 < m <= SIGN64
    ensures Log2(m) < 64
  {
    Pow2Values();
    if Log2(m) >= 64 { Pow2Monotone(64, Log2(m)); }
  }

  lemma MulMonotone(a: nat, b: nat, c: nat)
    requires a <= b
    ensures a * c <= b * c
  {
  }

  lemma ScaleBound(m: nat, e: nat, k: nat)
    requires Pow2(e) <= m < 2 * Pow2(e) && e + k == 52
    ensures 0x10_0000_0000_0000 <= m * Pow2(k) < 0x20_0000_0000_0000
  {
    Pow2Values();
    Pow2Add(e, k);
    ScaleLemma(m, Pow2(e), Pow2(k));
  }

  lemma ScaleLemma(m: nat, p: nat, s: nat)
    requires p <= m < 2 * p && s > 0
    ensures p * s <= m * s < 2 * (p * s)
  {
    MulMonotone(p, m, s);
    MulMonotone(m + 1, 2 * p, s);
    assert (m + 1) * s == m * s + s;
    assert 2 * p * s == 2 * (p * s);
  }

  lemma QuotientBound(m: nat, e: nat)
    requires Pow2(e) <= m < 2 * Pow2(e) && e > 52
    ensures 0x10_0000_0000_0000 <= m / Pow2(e - 52) < 0x20_0000_0000_0000
  {
    Pow2Values();
    Pow2Add(e - 52, 52);
    QuotientLemma(m, Pow2(e - 52), 0x10_0000_0000_0000);
  }

  lemma QuotientLemma(m: nat, unit: nat, top: nat)
    requires unit > 0 && unit * top <= m < 2 * (unit * top)
    ensures top <= m / unit < 2 * top
  {
    var q := m / unit;
    assert q * unit <= m < (q + 1) * unit;
    if q + 1 <= top { MulMonotone(q + 1, top, unit); }
    if 2 * top <= q { MulMonotone(2 * top, q, unit); }
  }

  // ─── Equality ──────────────────────────────────────────────────────────────

  /** The derived `PartialEq`: same variant, floats compared as IEEE numbers. */
  predicate Eq(a: Value, b: Value)
    decreases a
  {
    match (a, b)
    case (Bool(x), Bool(y)) => x == y
    case (Int(x), Int(y)) => x == y
    case (Float(x), Float(y)) => F64Eq(x, y)
    case (Text(x), Text(y)) => x == y
    case (Timestamp(x), Timestamp(y)) => x == y
    case (Bytestring(x), Bytestring(y)) => x == y
    case (List(x), List(y)) => |x| == |y| && forall k | 0 <= k < |x| :: Eq(x[k], y[k])
    case (Map(x), Map(y)) => x.Keys == y.Keys && forall k | k in x :: Eq(x[k], y[k])
    case (Null, Null) => true
    case (Vector(x), Vector(y)) => |x| == |y| && forall k | 0 <= k < |x| :: F32Eq(x[k], y[k])
    case _ => false
  }

  lemma {:induction false} EqSymmetric(a: Value, b: Value)
    ensures Eq(a, b) == Eq(b, a)
  {
    match (a, b)
    case (List(x), List(y)) =>
      forall k | 0 <= k < |x| && |x| == |y| ensures Eq(x[k], y[k]) == Eq(y[k], x[k]) {
        EqSymmetric(x[k], y[k]);
      }
    case (Map(x), Map(y)) =>
      forall k | k in x && k in y ensures Eq(x[k], y[k]) == Eq(y[k], x[k]) {
        EqSymmetric(x[k], y[k]);
      }
    case _ =>
  }

  lemma {:induction false} EqTransitive(a: Value, b: Value, c: Value)
    requires Eq(a, b) && Eq(b, c)
    ensures Eq(a, c)
  {
    match a
    case List(x) =>
      forall k | 0 <= k < |x| ensures Eq(x[k], c.items[k]) {
        EqTransitive(x[k], b.items[k], c.items[k]);
      }
    case Map(x) =>
      forall k | k in x ensures Eq(x[k], c.entries[k]) {
        EqTransitive(x[k], b.entries[k], c.entries[k]);
      }
    case _ =>
  }

  /** Replacing a literal by an equal one never changes an equality test. */
  lemma EqCongruent(a: Value, b: Value, c: Value)
    requires Eq(b, c)
    ensures Eq(a, b) == Eq(a, c)
  {
    EqSymmetric(b, c);
    if Eq(a, b) { EqTransitive(a, b, c); }
    if Eq(a, c) { EqTransitive(a, c, b); }
  }

  /** No float in the value is a zero (the only case where `==` and bit identity part). */
  predicate NoZeroFloat(v: Value) {
    match v
    case Float(f) => Magnitude64(f) != 0
    case List(xs) => forall k | 0 <= k < |xs| :: NoZeroFloat(xs[k])
    case Map(m) => forall k | k in m :: NoZeroFloat(m[k])
    case Vector(fs) => forall k | 0 <= k < |fs| :: fs[k] % 0x8000_0000 != 0
    case _ => true
  }

  lemma {:induction false} EqWithoutZeros(a: Value, b: Value)
    requires Eq(a, b) && NoZeroFloat(b)
    ensures a == b
  {
    match a
    case List(x) =>
      forall k | 0 <= k < |x| ensures x[k] == b.items[k] {
        EqWithoutZeros(x[k], b.items[k]);
      }
      assert x == b.items;
    case Map(x) =>
      forall k | k in x ensures x[k] == b.entries[k] {
        EqWithoutZeros(x[k], b.entries[k]);
      }
      assert x == b.entries;
    case Vector(x) =>
      forall k | 0 <= k < |x| ensures x[k] == b.floats[k] {
        assert F32Eq(x[k], b.floats[k]);
      }
      assert x == b.floats;
    case _ =>
  }

  // ─── Ordering for range filters ────────────────────────────────────────────

  function BoolRank(b: bool): int {
    if b then 1 else 0
  }

  /** `partial_cmp_value`: within a type, plus Int against Float as doubles. */
  function PartialCmp(a: Value, b: Value): Option<Ordering> {
    match (a, b)
    case (Null, Null) => Some(Ordering.Equal)
    case (Int(x), Int(y)) => Some(IntCmp(x, y))
    case (Float(x), Float(y)) => F64Cmp(x, y)
    case (Int(x), Float(y)) => F64Cmp(IntToF64(x), y)
    case (Float(x), Int(y)) => F64Cmp(x, IntToF64(y))
    case (Text(x), Text(y)) => Some(Cmp(x, y))
    case (Timestamp(x), Timestamp(y)) => Some(IntCmp(x, y))
    case (Bool(x), Bool(y)) => Some(IntCmp(BoolRank(x), BoolRank(y)))
    case _ => None
  }

  lemma PartialCmpCongruent(a: Value, b: Value, c: Value)
    requires Eq(b, c)
    ensures PartialCmp(a, b) == PartialCmp(a, c)
  {
  }
}
