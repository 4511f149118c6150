/**
 ORDER BY through a ghost, told by the literals: which values a pure AND query
 lets through at its order field, and which single predicates let two of them
 clash. With the input that shows timestamps out of order.
 */
module OrderLiterals {
  import opened Bytes
  import opened Filters
  import opened FloatOrder
  import opened GhostReader
  import opened GhostSeek
  import opened OrderedReader
  import opened QueryOrder
  import opened Router
  import opened Sequences
  import opened SortKeys
  import opened Values

  // ─── The values a query lets through ───────────────────────────────────────

  /** The record with at most the order field. */
  function Only(field: string, a: Option<Value>): Fields {
    if a.Some? then map[field := a.value] else map[]
  }

  /** The predicates that look at the field hold of `a`. */
  predicate AtField(a: Option<Value>, field: string, ps: seq<Predicate>) {
    forall k | 0 <= k < |ps| && Split(ps[k].field)[0] == field :: Holds(Only(field, a), ps[k])
  }

  lemma SplitAt(f: Fields, field: string, ps: seq<Predicate>)
    requires '.' !in field
    ensures HoldsAll(f, ps) <==> AtField(Lookup(f, field), field, ps) && RestHolds(f, field, ps)
  {
    var g := Only(field, Lookup(f, field));
    forall k | 0 <= k < |ps| && Split(ps[k].field)[0] == field ensures Holds(f, ps[k]) == Holds(g, ps[k]) {
      assert ResolvePath(f, ps[k].field) == ResolvePath(g, ps[k].field);
    }
  }

  lemma PutAt(f: Fields, field: string, a: Option<Value>, ps: seq<Predicate>) returns (g: Fields)
    requires RestHolds(f, field, ps)
    ensures RestHolds(g, field, ps) && Lookup(g, field) == a
  {
    g := if a.Some? then f[field := a.value] else f - {field};
    forall k | 0 <= k < |ps| && Split(ps[k].field)[0] != field ensures Holds(g, ps[k]) {
      assert ResolvePath(f, ps[k].field) == ResolvePath(g, ps[k].field);
    }
  }

  ghost predicate RestMatchable(field: string, ps: seq<Predicate>) {
    exists f: Fields :: RestHolds(f, field, ps)
  }

  /** A pure AND lets a value through exactly when its predicates on the field accept it and the others can hold. */
  lemma LetThroughIff(q: Query, field: string, a: Option<Value>)
    requires WellPosed(q) && FlatQuery(q) && PlainName(field)
    ensures LetThrough(q, field, a) <==> AtField(a, field, q.filters) && RestMatchable(field, q.filters)
  {
    if LetThrough(q, field, a) {
      var f: Fields :| MatchesOpt(f, q.expr) && ResolvePath(f, field) == a;
      FlatMeaning(q, f);
      SplitAt(f, field, q.filters);
    }
    if AtField(a, field, q.filters) && RestMatchable(field, q.filters) {
      var f: Fields :| RestHolds(f, field, q.filters);
      var g := PutAt(f, field, a, q.filters);
      SplitAt(g, field, q.filters);
      FlatMeaning(q, g);
      assert ResolvePath(g, field) == a;
    }
  }

  /** So a pure AND is safe to order by a plain field exactly when no two values it accepts there clash. */
  lemma FlatOrderIff(q: Query, field: string)
    requires WellPosed(q) && FlatQuery(q) && PlainName(field)
    ensures OrderSafe(q, field) <==>
            || !RestMatchable(field, q.filters)
            || forall a, b | AtField(a, field, q.filters) && AtField(b, field, q.filters) :: !Clash(a, b)
  {
    forall a ensures LetThrough(q, field, a) <==> AtField(a, field, q.filters) && RestMatchable(field, q.filters) {
      LetThroughIff(q, field, a);
    }
  }

  /** A query that says nothing about its order field is never safe, unless nothing matches it. */
  lemma UnboundOrderIff(q: Query, field: string)
    requires WellPosed(q) && FlatQuery(q) && PlainName(field)
    requires forall k | 0 <= k < |q.filters| :: Split(q.filters[k].field)[0] != field
    ensures OrderSafe(q, field) <==> !Matchable(q.filters)
  {
    FlatOrderIff(q, field);
    assert AtField(None, field, q.filters) && AtField(Some(Null), field, q.filters) && Clash(None, Some(Null));
    assert forall f: Fields :: HoldsAll(f, q.filters) <==> RestHolds(f, field, q.filters);
  }

  // ─── One predicate on the order field ──────────────────────────────────────

  const LOWEST: int := Magnitude64(IntToF64(MIN64))
  const HIGHEST: int := Magnitude64(IntToF64(MAX64))

  /** Two listed values that are matched by something and clash. */
  predicate ClashingItems(v: Value, w: Value) {
    Eq(v, v) && Eq(w, w) && Clash(Some(v), Some(w))
  }

  /** The literals of a single predicate on the order field that accepts two values that clash. */
  predicate ClashingLiteral(op: FilterOp, e: Value) {
    match op
    case OpEq => false
    case OpContains => false
    case OpNeq => true
    case OpIsNull => true
    case OpIsNotNull => true
    case OpIn =>
      e.List? && exists j, k | 0 <= j < |e.items| && 0 <= k < |e.items| :: ClashingItems(e.items[j], e.items[k])
    case OpGt =>
      (match e
       case Timestamp(t) => t < MAX64 - 1
       case _ => MagnitudeOf(e).Some? && MagnitudeOf(e).value + 1 < HIGHEST)
    case OpGte =>
      (match e
       case Timestamp(t) => t < MAX64
       case Bool(b) => !b
       case _ => MagnitudeOf(e).Some? && MagnitudeOf(e).value < HIGHEST)
    case OpLt =>
      (match e
       case Timestamp(t) => t > MIN64 + 1
       case Int(i) => i > MIN64
       case _ => MagnitudeOf(e).Some? && MagnitudeOf(e).value > LOWEST)
    case OpLte =>
      (match e
       case Timestamp(t) => t > MIN64
       case Bool(b) => b
       case Int(_) => true
       case _ => MagnitudeOf(e).Some? && MagnitudeOf(e).value >= LOWEST)
  }

  predicate Accepted(p: Predicate, a: Option<Value>) {
    Holds(Only(p.field, a), p)
  }

  lemma ExtremesAreNumbers()
    ensures -INF64 < LOWEST <= HIGHEST < INF64 && !IsNan64(IntToF64(MIN64)) && !IsNan64(IntToF64(MAX64))
  {
    MagnitudeRange(Int(MIN64));
    MagnitudeRange(Int(MAX64));
    IntToF64Monotone(MIN64, MAX64);
  }

  lemma IntWithin(i: I64)
    ensures LOWEST <= Magnitude64(IntToF64(i)) <= HIGHEST && !IsNan64(IntToF64(i))
  {
    IntToF64Monotone(MIN64, i);
    IntToF64Monotone(i, MAX64);
    IntIsNumber(i);
  }

  /** Unless both are integers, numbers compare as their magnitudes do. */
  lemma MixedCompare(v: Value, e: Value)
    requires MagnitudeOf(v).Some? && MagnitudeOf(e).Some? && (v.Float? || e.Float?)
    ensures PartialCmp(v, e) == Some(IntCmp(MagnitudeOf(v).value, MagnitudeOf(e).value))
  {
    MagnitudeRange(v);
    MagnitudeRange(e);
  }

  lemma IntAbove(i: I64, e: Value)
    requires MagnitudeOf(e).Some? && Magnitude64(IntToF64(i)) > MagnitudeOf(e).value
    ensures PartialCmp(Int(i), e) == Some(Greater)
  {
    if e.Float? {
      MixedCompare(Int(i), e);
    } else if i <= e.i {
      IntToF64Monotone(i, e.i);
    }
  }

  /** An integer above a double that is just above, or at, the literal. */
  lemma LowerNumbers(p: Predicate, i: I64) returns (f: F64)
    requires '.' !in p.field && (p.op == OpGt || p.op == OpGte) && MagnitudeOf(p.value).Some?
    requires MagnitudeOf(p.value).value + (if p.op == OpGt then 1 else 0) < Magnitude64(IntToF64(i))
    ensures Accepted(p, Some(Int(i))) && Accepted(p, Some(Float(f))) && Clash(Some(Int(i)), Some(Float(f)))
  {
    MagnitudeRange(p.value);
    MagnitudeRange(Int(i));
    f := FloatOf(MagnitudeOf(p.value).value + (if p.op == OpGt then 1 else 0));
    IntAbove(i, p.value);
    IntAbove(i, Float(f));
    MixedCompare(Float(f), p.value);
  }

  lemma LowerWitness(p: Predicate) returns (a: Option<Value>, b: Option<Value>)
    requires '.' !in p.field && (p.op == OpGt || p.op == OpGte) && ClashingLiteral(p.op, p.value)
    ensures Accepted(p, a) && Accepted(p, b) && Clash(a, b)
  {
    if p.value.Timestamp? {
      var t := p.value.micros + (if p.op == OpGt then 1 else 0);
      a, b := Some(Timestamp(t)), Some(Timestamp(t + 1));
    } else if p.value.Bool? {
      a, b := Some(Bool(false)), Some(Bool(true));
    } else {
      var f := LowerNumbers(p, MAX64);
      a, b := Some(Int(MAX64)), Some(Float(f));
    }
  }

  /** An integer above minus infinity. */
  lemma UpperNumbers(p: Predicate, i: I64)
    requires '.' !in p.field && (p.op == OpLt || p.op == OpLte) && MagnitudeOf(p.value).Some?
             && Accepted(p, Some(Int(i)))
    ensures var a, b := Some(Int(i)), Some(Float(FloatOf(-INF64))); Accepted(p, b) && Clash(a, b)
  {
    var f := FloatOf(-INF64);
    MagnitudeRange(p.value);
    MagnitudeRange(Int(i));
    MixedCompare(Float(f), p.value);
    MixedCompare(Int(i), Float(f));
    MixedCompare(Float(f), Int(i));
    if p.value.Float? { MixedCompare(Int(i), p.value); }
  }

  lemma LeastAccepted(p: Predicate, i: I64)
    requires '.' !in p.field && (p.op == OpLt || p.op == OpLte) && MagnitudeOf(p.value).Some?
    requires p.value.Int? ==> if p.op == OpLt then i < p.value.i else i <= p.value.i
    requires p.value.Float? ==> var m := Magnitude64(IntToF64(i));
                                if p.op == OpLt then m < MagnitudeOf(p.value).value else m <= MagnitudeOf(p.value).value
    ensures Accepted(p, Some(Int(i)))
  {
    if p.value.Float? { MixedCompare(Int(i), p.value); }
  }

  lemma UpperWitness(p: Predicate) returns (a: Option<Value>, b: Option<Value>)
    requires '.' !in p.field && (p.op == OpLt || p.op == OpLte) && ClashingLiteral(p.op, p.value)
    ensures Accepted(p, a) && Accepted(p, b) && Clash(a, b)
  {
    if p.value.Timestamp? {
      var t := p.value.micros - (if p.op == OpLt then 1 else 0);
      a, b := Some(Timestamp(t)), Some(Timestamp(t - 1));
    } else if p.value.Bool? {
      a, b := Some(Bool(false)), Some(Bool(true));
    } else {
      LeastAccepted(p, MIN64);
      UpperNumbers(p, MIN64);
      a, b := Some(Int(MIN64)), Some(Float(FloatOf(-INF64)));
    }
  }

  lemma ClashWitness(p: Predicate) returns (a: Option<Value>, b: Option<Value>)
    requires '.' !in p.field && ClashingLiteral(p.op, p.value)
    ensures Accepted(p, a) && Accepted(p, b) && Clash(a, b)
  {
    match p.op
    case OpNeq =>
      if p.value == Null {
        a, b := Some(Timestamp(0)), Some(Timestamp(1));
      } else {
        a, b := Some(Null), Some(Bool(!Eq(p.value, Bool(true))));
      }
    case OpIsNull => a, b := None, Some(Null);
    case OpIsNotNull => a, b := Some(Timestamp(0)), Some(Timestamp(1));
    case OpGt => a, b := LowerWitness(p);
    case OpGte => a, b := LowerWitness(p);
    case OpLt => a, b := UpperWitness(p);
    case OpLte => a, b := UpperWitness(p);
    case OpIn => a, b := ListWitness(p);
  }

  lemma ListWitness(p: Predicate) returns (a: Option<Value>, b: Option<Value>)
    requires '.' !in p.field && p.op == OpIn && ClashingLiteral(p.op, p.value)
    ensures Accepted(p, a) && Accepted(p, b) && Clash(a, b)
  {
    var items := p.value.items;
    var j, k :| 0 <= j < |items| && 0 <= k < |items| && ClashingItems(items[j], items[k]);
    a, b := Some(items[j]), Some(items[k]);
  }

  lemma FloatOverLiteral(p: Predicate, f: F64)
    requires '.' !in p.field && p.op in {OpGt, OpGte} && Accepted(p, Some(Float(f)))
    ensures MagnitudeOf(p.value).Some?
    ensures MagnitudeOf(p.value).value + (if p.op == OpGt then 1 else 0) <= Magnitude64(f)
  {
    MixedCompare(Float(f), p.value);
  }

  lemma IntUnderLiteral(p: Predicate, i: I64)
    requires '.' !in p.field && p.op in {OpLt, OpLte} && Accepted(p, Some(Int(i)))
    ensures MagnitudeOf(p.value).Some?
    ensures p.value.Int? ==> if p.op == OpLt then i < p.value.i else i <= p.value.i
    ensures p.value.Float? ==> var m := Magnitude64(IntToF64(i));
                               if p.op == OpLt then m < MagnitudeOf(p.value).value else m <= MagnitudeOf(p.value).value
  {
    if p.value.Float? { MixedCompare(Int(i), p.value); }
  }

  lemma OnlyClashingNumbers(p: Predicate, i: I64, f: F64)
    requires '.' !in p.field && p.op in {OpGt, OpGte, OpLt, OpLte}
    requires Accepted(p, Some(Int(i))) && Accepted(p, Some(Float(f))) && IntAboveFloat(Some(Int(i)), Some(Float(f)))
    ensures ClashingLiteral(p.op, p.value)
  {
    IntWithin(i);
    if p.op in {OpGt, OpGte} { FloatOverLiteral(p, f); } else { IntUnderLiteral(p, i); }
  }

  lemma OnlyClashingUntold(p: Predicate, a: Option<Value>, b: Option<Value>)
    requires '.' !in p.field && p.op in {OpGt, OpGte, OpLt, OpLte} && Accepted(p, a) && Accepted(p, b) && Untold(a, b)
    ensures ClashingLiteral(p.op, p.value)
  {
  }

  lemma NullAloneInRanges(p: Predicate, a: Option<Value>, b: Option<Value>)
    requires '.' !in p.field && p.op in {OpGt, OpGte, OpLt, OpLte} && Accepted(p, a) && Accepted(p, b)
    ensures !NullBeside(a, b)
  {
  }

  lemma OnlyClashingRanges(p: Predicate, a: Option<Value>, b: Option<Value>)
    requires '.' !in p.field && p.op in {OpGt, OpGte, OpLt, OpLte} && Accepted(p, a) && Accepted(p, b) && Clash(a, b)
    ensures ClashingLiteral(p.op, p.value)
  {
    NullAloneInRanges(p, a, b);
    NullAloneInRanges(p, b, a);
    if Untold(a, b) {
      OnlyClashingUntold(p, a, b);
    } else if IntAboveFloat(a, b) {
      OnlyClashingNumbers(p, a.value.i, b.value.f);
    } else {
      OnlyClashingNumbers(p, b.value.i, a.value.f);
    }
  }

  lemma EqualItems(u: Value, v: Value, x: Value, y: Value)
    requires Eq(u, x) && Eq(v, y) && Clash(Some(x), Some(y))
    ensures ClashingItems(u, v)
  {
    EqSymmetric(u, x);
    EqSymmetric(v, y);
    EqTransitive(u, x, u);
    EqTransitive(v, y, v);
  }

  lemma OnlyClashingLists(p: Predicate, a: Option<Value>, b: Option<Value>)
    requires '.' !in p.field && p.op == OpIn && Accepted(p, a) && Accepted(p, b) && Clash(a, b)
    ensures ClashingLiteral(p.op, p.value)
  {
    var items := p.value.items;
    var j :| 0 <= j < |items| && Eq(items[j], a.value);
    var k :| 0 <= k < |items| && Eq(items[k], b.value);
    EqualItems(items[j], items[k], a.value, b.value);
  }

  lemma OnlyClashingLiterals(p: Predicate, a: Option<Value>, b: Option<Value>)
    requires '.' !in p.field && Accepted(p, a) && Accepted(p, b) && Clash(a, b)
    ensures ClashingLiteral(p.op, p.value)
  {
    if p.op in {OpGt, OpGte, OpLt, OpLte} { OnlyClashingRanges(p, a, b); }
    if p.op == OpIn { OnlyClashingLists(p, a, b); }
  }

  /**
   A pure AND with one predicate on its plain order field is safe to order by it
   exactly when the literal is not a clashing one, or the others cannot hold.
   */
  lemma SingleOrderIff(q: Query, k: nat)
    requires WellPosed(q) && FlatQuery(q) && k < |q.filters| && PlainName(q.filters[k].field)
    requires forall j | 0 <= j < |q.filters| && j != k :: Split(q.filters[j].field)[0] != q.filters[k].field
    ensures OrderSafe(q, q.filters[k].field) <==>
            !ClashingLiteral(q.filters[k].op, q.filters[k].value) || !RestMatchable(q.filters[k].field, q.filters)
  {
    var p := q.filters[k];
    FlatOrderIff(q, p.field);
    forall a ensures AtField(a, p.field, q.filters) <==> Accepted(p, a) {
    }
    if ClashingLiteral(p.op, p.value) {
      var a, b := ClashWitness(p);
      assert AtField(a, p.field, q.filters) && AtField(b, p.field, q.filters);
    } else {
      forall a, b | AtField(a, p.field, q.filters) && AtField(b, p.field, q.filters) ensures !Clash(a, b) {
        if Clash(a, b) { OnlyClashingLiterals(p, a, b); }
      }
    }
  }

  // ─── Timestamps out of order ───────────────────────────────────────────────

  function TimeRow(t: I64, tie: Byte): Row {
    (Filters.Record(0, "", map["t" := Timestamp(t)], 0, 0), [tie])
  }

  /** A whole-lobe ghost ordered by `t`, and ORDER BY t LIMIT n without a WHERE. */
  const TIMES: Meta := Meta([], And([]), None, "t", false, false, [], [], true, false)
  const BY_TIME: Query := Query(None, [], Some(("t", false)), false, [], true, None)

  const TIME_GHOST: GhostSeek.Ghost := GhostSeek.Ghost(1, false, "t", [TimeRow(2, 1), TimeRow(1, 2)])

  lemma TimeGhostServes()
    ensures WellRegistered(TIMES) && WellPosed(BY_TIME) && Relevant(TIMES, BY_TIME) && ServesRecords(TIMES, BY_TIME)
  {
  }

  lemma TimeGhostListed()
    ensures Listed(TIME_GHOST)
  {
    TiebreakOrder(1, Some(Timestamp(2)), Some(Timestamp(1)), false, [1], [2]);
  }

  lemma TimeGhostIndexes()
    ensures Indexes(TIME_GHOST, TIMES, TIME_GHOST.entries)
  {
    KeepBoth(InGhost(TIMES), TimeRow(2, 1), TimeRow(1, 2));
  }

  lemma TimeGhostRows()
    ensures GhostRows(TIME_GHOST, BY_TIME) == TIME_GHOST.entries == Keep(TIME_GHOST.entries, Wanted(BY_TIME))
  {
    var x, y := TimeRow(2, 1), TimeRow(1, 2);
    KeyParts(1, Some(Timestamp(2)), false, [1]);
    KeyParts(1, Some(Timestamp(1)), false, [2]);
    KeepBoth(Reader(TIME_GHOST, SeekWindow(TIME_GHOST, BY_TIME), []), x, y);
    KeepBoth(Wanted(BY_TIME), x, y);
  }

  lemma OneOfTwo(q: Query, x: Row, y: Row)
    requires CompareRows(q, x, y) == Greater && x != y
    ensures !RightTop(RowCmp(q), [x, y], 1, [x])
    ensures CompareRows(q, y, x) != Greater ==> RightTop(RowCmp(q), [x, y], 1, [y])
  {
    assert multiset([x, y]) - multiset([x]) == multiset{y};
    assert multiset([x, y]) - multiset([y]) == multiset{x};
    assert RowCmp(q)(x, y) == Greater && x in [x] && y in multiset{y};
  }

  /**
   Two timestamps tie in the sort key, so the ghost lists the record of 2 before
   that of 1 by their spatial keys: with LIMIT 1 it answers 2, and the right answer is 1.
   */
  lemma TimestampsOutOfOrder()
    ensures GhostRows(TIME_GHOST, BY_TIME) == TIME_GHOST.entries
    ensures !RightRead(TIME_GHOST, BY_TIME, TIME_GHOST.entries, 1)
    ensures RightTop(RowCmp(BY_TIME), Keep(TIME_GHOST.entries, Wanted(BY_TIME)), 1, [TimeRow(1, 2)])
  {
    var x, y := TimeRow(2, 1), TimeRow(1, 2);
    TimeGhostRows();
    TimesCompare();
    OneOfTwo(BY_TIME, x, y);
    assert First([x, y], 1) == [x];
  }

  lemma TimesCompare()
    ensures CompareRows(BY_TIME, TimeRow(2, 1), TimeRow(1, 2)) == Greater
    ensures CompareRows(BY_TIME, TimeRow(1, 2), TimeRow(2, 1)) == Less
  {
  }

  /** The two rows are totally ordered, and every right answer of one row is the record of 1. */
  lemma OnlyOneIsRight(out: seq<Row>)
    requires RightTop(RowCmp(BY_TIME), TIME_GHOST.entries, 1, out)
    ensures TotalOn(RowCmp(BY_TIME), TIME_GHOST.entries) && out == [TimeRow(1, 2)]
  {
    var x, y := TimeRow(2, 1), TimeRow(1, 2);
    TimesCompare();
    OneOfTwo(BY_TIME, x, y);
    assert out[0] in multiset(out) && out == [out[0]];
    assert out[0] in multiset([x, y]);
  }
}
