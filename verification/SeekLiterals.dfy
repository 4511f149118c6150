/**
 Which literals on a ghost's order field make the seek pass by a number that the
 filters accept: for one predicate, and for a lower and an upper bound together.
 */
module SeekLiterals {
  import opened Bytes
  import opened Filters
  import opened FloatOrder
  import opened GhostReader
  import opened GhostSeek
  import opened Values

  // ─── One predicate on the order field ──────────────────────────────────────

  /** The literals of a single predicate on the order field for which the seek loses a number the filter accepts. */
  predicate LosingLiteral(op: FilterOp, e: Value) {
    match op
    case OpEq => e == PLUS_ZERO || e == MINUS_ZERO
    case OpGt => e.Float? && F64Cmp(IntToF64(MAX64), e.f) == Some(Greater)
    case OpGte => e.Float? && F64Cmp(IntToF64(MAX64), e.f) in {Some(Greater), Some(Ordering.Equal)}
    case OpLt => e.Int?
    case OpLte => e.Int? || e == MINUS_ZERO
    case _ => false
  }

  const MINUS_INFINITY: F64 := 0xFFF0_0000_0000_0000

  predicate Losing(v: Value, field: string, p: Predicate) {
    Lost(v, Tightened(Bounds(None, None, None), p, field)) && Holds(map[field := v], p)
  }

  lemma LosingWitness(p: Predicate) returns (v: Value)
    requires '.' !in p.field && LosingLiteral(p.op, p.value)
    ensures Losing(v, p.field, p)
  {
    match p.op
    case OpEq => v := if p.value == PLUS_ZERO then MINUS_ZERO else PLUS_ZERO;
    case OpGt => v := Int(MAX64);
    case OpGte => v := Int(MAX64);
    case OpLt =>
      v := Float(MINUS_INFINITY);
      BelowEveryInt(p.value.i);
    case OpLte =>
      if p.value.Int? {
        v := Float(MINUS_INFINITY);
        BelowEveryInt(p.value.i);
      } else {
        v := PLUS_ZERO;
      }
  }

  lemma BelowFinite(n: nat)
    requires n < INF64
    ensures F64Cmp(MINUS_INFINITY, n) == F64Cmp(MINUS_INFINITY, SIGN64 + n) == Some(Less)
  {
    FiniteIsNumber(n);
  }

  lemma BelowEveryInt(i: I64)
    ensures F64Cmp(MINUS_INFINITY, IntToF64(i)) == Some(Less)
  {
    if i == 0 {
      BelowFinite(0);
    } else {
      var m := if i > 0 then i else -(i as int);
      NatFinite(m);
      BelowFinite(NatToF64(m));
    }
  }

  lemma OnlyLosingLiterals(p: Predicate, v: Value)
    requires '.' !in p.field && Losing(v, p.field, p)
    ensures LosingLiteral(p.op, p.value)
  {
    if v.Int? {
      IntToF64Monotone(v.i, MAX64);
      IntIsNumber(v.i);
      IntIsNumber(MAX64);
    }
    MaxIsPositive();
  }

  lemma MaxIsPositive()
    ensures Magnitude64(IntToF64(MAX64)) > 0 && !IsNan64(IntToF64(MAX64))
  {
    IntIsNumber(MAX64);
    IntToF64Monotone(5, MAX64);
    FiveAsFloat();
  }

  lemma {:induction false} SoleBound(ps: seq<Predicate>, field: string, k: nat)
    requires k < |ps| && ps[k].field == field
    requires forall j | 0 <= j < |ps| && j != k :: ps[j].field != field
    ensures BoundsOf(ps, field) == Tightened(Bounds(None, None, None), ps[k], field)
  {
    var front := ps[..|ps| - 1];
    if k == |ps| - 1 { Unbound(front, field); } else { SoleBound(front, field, k); }
  }

  lemma {:induction false} Unbound(ps: seq<Predicate>, field: string)
    requires forall j | 0 <= j < |ps| :: ps[j].field != field
    ensures BoundsOf(ps, field) == Bounds(None, None, None)
  {
    if ps != [] { Unbound(ps[..|ps| - 1], field); }
  }

  /**
   A query with one predicate on the plain order field: the seek loses a match
   exactly when its literal is a losing one and the other predicates can hold.
   */
  lemma SingleBoundIff(ps: seq<Predicate>, k: nat)
    requires k < |ps| && ps[k].field != "" && '.' !in ps[k].field
    requires forall j | 0 <= j < |ps| && j != k :: Split(ps[j].field)[0] != ps[k].field
    ensures SeekSafe(ps, ps[k].field) <==>
            !LosingLiteral(ps[k].op, ps[k].value) || forall f: Fields :: !RestHolds(f, ps[k].field, ps)
  {
    var p := ps[k];
    SoleBound(ps, p.field, k);
    forall v ensures FieldHolds(v, p.field, ps) <==> Holds(map[p.field := v], p) {
    }
    if LosingLiteral(p.op, p.value) {
      var v := LosingWitness(p);
      assert Lost(v, BoundsOf(ps, p.field)) && FieldHolds(v, p.field, ps);
    } else {
      forall v | Lost(v, BoundsOf(ps, p.field)) ensures !FieldHolds(v, p.field, ps) {
        if FieldHolds(v, p.field, ps) { OnlyLosingLiterals(p, v); }
      }
    }
  }

  // ─── A lower and an upper bound ────────────────────────────────────────────

  predicate Accepts(p: Predicate, v: Value) {
    Holds(map[p.field := v], p)
  }

  predicate IsLower(p: Predicate) {
    p.op == OpGt || p.op == OpGte
  }

  predicate IsUpper(p: Predicate) {
    p.op == OpLt || p.op == OpLte
  }

  /** The magnitudes between the two literals, the literals themselves as their operators allow. */
  predicate FloatFits(p: Predicate, r: Predicate) {
    var lo, hi := MagnitudeOf(p.value), MagnitudeOf(r.value);
    lo.Some? && hi.Some?
    && lo.value + (if p.op == OpGt then 1 else 0) <= hi.value - (if r.op == OpLt then 1 else 0)
  }

  /** The greatest integer an upper bound accepts. */
  function Top(r: Predicate): int
    requires r.value.Int?
  {
    r.value.i - (if r.op == OpLt then 1 else 0)
  }

  /**
   The pairs of literals for which the seek loses a number both predicates accept:
   an integer between two doubles, a double between two integers, either one
   between a double and an integer, and +0.0 above an integer and at -0.0.
   */
  ghost predicate LosingPair(p: Predicate, r: Predicate) {
    match (p.value, r.value)
    case (Float(_), Float(_)) => exists i: I64 :: Accepts(p, Int(i)) && Accepts(r, Int(i))
    case (Float(_), Int(_)) => FloatFits(p, r) || (Top(r) >= MIN64 && Accepts(p, Int(Top(r))))
    case (Int(_), Int(_)) => FloatFits(p, r)
    case (Int(_), Float(_)) => r.value == MINUS_ZERO && r.op == OpLte && Accepts(p, PLUS_ZERO)
    case _ => false
  }

  predicate LostBetween(v: Value, p: Predicate, r: Predicate) {
    Lost(v, Bounds(None, Some(p.value), Some(r.value))) && Accepts(p, v) && Accepts(r, v)
  }

  /** The double one step above, at or one step below the literals that both predicates accept. */
  lemma FittingFloat(p: Predicate, r: Predicate) returns (f: F64)
    requires '.' !in p.field && '.' !in r.field && IsLower(p) && IsUpper(r) && FloatFits(p, r)
    ensures Accepts(p, Float(f)) && Accepts(r, Float(f))
  {
    var m := MagnitudeOf(p.value).value + (if p.op == OpGt then 1 else 0);
    MagnitudeRange(p.value);
    MagnitudeRange(r.value);
    f := FloatOf(m);
  }

  lemma PairWitness(p: Predicate, r: Predicate) returns (v: Value)
    requires '.' !in p.field && '.' !in r.field && IsLower(p) && IsUpper(r) && LosingPair(p, r)
    ensures LostBetween(v, p, r)
  {
    if p.value.Float? && r.value.Float? {
      var i: I64 :| Accepts(p, Int(i)) && Accepts(r, Int(i));
      v := Int(i);
    } else if r.value.Float? {
      v := PLUS_ZERO;
    } else if FloatFits(p, r) {
      var f := FittingFloat(p, r);
      v := Float(f);
    } else {
      v := Int(Top(r));
    }
  }

  lemma FloatBetween(p: Predicate, r: Predicate, f: F64)
    requires '.' !in p.field && '.' !in r.field && IsLower(p) && IsUpper(r)
    requires Accepts(p, Float(f)) && Accepts(r, Float(f))
    ensures FloatFits(p, r)
  {
  }

  lemma TopAccepted(p: Predicate, r: Predicate, i: I64)
    requires '.' !in p.field && '.' !in r.field && IsLower(p) && IsUpper(r) && p.value.Float? && r.value.Int?
    requires Accepts(p, Int(i)) && Accepts(r, Int(i))
    ensures Top(r) >= MIN64 && Accepts(p, Int(Top(r)))
  {
    IntToF64Monotone(i, Top(r));
    IntIsNumber(Top(r));
  }

  lemma ZeroAsInt(p: Predicate, v: Value)
    requires '.' !in p.field && (IsLower(p) || IsUpper(p)) && p.value.Float?
    requires (v == PLUS_ZERO || v == MINUS_ZERO) && Accepts(p, v)
    ensures Accepts(p, Int(0))
  {
  }

  lemma OnlyLosingPairs(p: Predicate, r: Predicate, v: Value)
    requires '.' !in p.field && '.' !in r.field && IsLower(p) && IsUpper(r) && LostBetween(v, p, r)
    ensures LosingPair(p, r)
  {
    if v.Int? {
      if r.value.Int? { TopAccepted(p, r, v.i); } else { assert Accepts(p, Int(v.i)) && Accepts(r, Int(v.i)); }
    } else if p.value.Float? && r.value.Float? {
      ZeroAsInt(p, v);
      ZeroAsInt(r, v);
      assert Accepts(p, Int(0)) && Accepts(r, Int(0));
    } else if r.value.Int? {
      FloatBetween(p, r, v.f);
    }
  }

  lemma {:induction false} PairBounds(ps: seq<Predicate>, field: string, k: nat, j: nat)
    requires k < |ps| && j < |ps| && k != j && ps[k].field == ps[j].field == field && IsLower(ps[k]) && IsUpper(ps[j])
    requires forall i | 0 <= i < |ps| && i != k && i != j :: ps[i].field != field
    ensures BoundsOf(ps, field) == Bounds(None, Some(ps[k].value), Some(ps[j].value))
  {
    var front := ps[..|ps| - 1];
    if k == |ps| - 1 {
      SoleBound(front, field, j);
    } else if j == |ps| - 1 {
      SoleBound(front, field, k);
    } else {
      PairBounds(front, field, k, j);
    }
  }

  /**
   A query with a lower and an upper bound on the plain order field, as BETWEEN
   gives: the seek loses a match exactly when the literals are a losing pair and
   the other predicates can hold.
   */
  lemma BetweenIff(ps: seq<Predicate>, k: nat, j: nat)
    requires k < |ps| && j < |ps| && k != j && ps[k].field == ps[j].field && IsLower(ps[k]) && IsUpper(ps[j])
    requires ps[k].field != "" && '.' !in ps[k].field
    requires forall i | 0 <= i < |ps| && i != k && i != j :: Split(ps[i].field)[0] != ps[k].field
    ensures SeekSafe(ps, ps[k].field) <==>
            !LosingPair(ps[k], ps[j]) || forall f: Fields :: !RestHolds(f, ps[k].field, ps)
  {
    var p, r := ps[k], ps[j];
    PairBounds(ps, p.field, k, j);
    forall v ensures FieldHolds(v, p.field, ps) <==> Accepts(p, v) && Accepts(r, v) {
    }
    if LosingPair(p, r) {
      var v := PairWitness(p, r);
      assert Lost(v, BoundsOf(ps, p.field)) && FieldHolds(v, p.field, ps);
    } else {
      forall v | Lost(v, BoundsOf(ps, p.field)) ensures !FieldHolds(v, p.field, ps) {
        if FieldHolds(v, p.field, ps) { OnlyLosingPairs(p, r, v); }
      }
    }
  }
}
