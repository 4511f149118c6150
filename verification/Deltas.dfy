/**
 Signed rollup deltas: what a lightweight ghost appends per write instead of
 reading and rewriting the group's state, and the merge that folds them.
 The algebra below is what lets the LSM fold them in any order and grouping.
 */
module Deltas {
  import opened Bytes
  import opened Sequences
  import opened Values
  import opened Filters
  import opened Aggregates

  datatype DeltaValue =
    | CountD(n: int)
    | SumD(sum: SumAcc)
    | MinD(low: Stored)
    | MaxD(high: Stored)
    | AvgD(total: SumAcc, n: int)

  type DCell = Option<DeltaValue>

  datatype Delta = Delta(count: int, values: map<string, DeltaValue>, dirty: bool) {
    function At(name: string): DCell {
      if name in values then Some(values[name]) else None
    }
  }

  const NO_DELTA := Delta(0, map[], false)

  /** The signed contribution of one record to one metric. */
  function RecordCell(fa: FloatArith, m: Metric, fields: Fields, sign: int): DCell {
    match m.Contribution(fields)
    case None => None
    case Some(v) =>
      Some(match m.op
           case CountOp => CountD(sign)
           case SumOp => SumD(AddScaled(fa, IntSum(0), v, sign))
           case MinOp => MinD(if sign < 0 then SNull else StoredOf(v))
           case MaxOp => MaxD(if sign < 0 then SNull else StoredOf(v))
           case AvgOp => AvgD(AddScaled(fa, IntSum(0), v, sign), sign))
  }

  /** A removal cannot undo an extreme. */
  predicate Soils(m: Metric, fields: Fields, sign: int) {
    sign < 0 && m.op in {MinOp, MaxOp} && m.Contribution(fields).Some?
  }

  function CellFor(fa: FloatArith, ms: seq<Metric>, fields: Fields, sign: int, name: string): DCell {
    match MetricFor(ms, name)
    case Some(m) => RecordCell(fa, m, fields, sign)
    case None => None
  }

  function ForRecord(fa: FloatArith, fields: Fields, ms: seq<Metric>, sign: int): Delta {
    Delta(sign,
          map l | l in Labels(ms) && CellFor(fa, ms, fields, sign, l).Some? :: CellFor(fa, ms, fields, sign, l).value,
          exists k | 0 <= k < |ms| :: Soils(ms[k], fields, sign))
  }

  function MergeDeltaValue(fa: FloatArith, a: DeltaValue, b: DeltaValue): DeltaValue {
    match (a, b)
    case (CountD(x), CountD(y)) => CountD(x + y)
    case (SumD(x), SumD(y)) => SumD(MergeSum(fa, x, y))
    case (MinD(x), MinD(y)) => if y != SNull && (x == SNull || StoredLt(y, x)) then b else a
    case (MaxD(x), MaxD(y)) => if y != SNull && (x == SNull || StoredLt(x, y)) then b else a
    case (AvgD(x, n), AvgD(y, m)) => AvgD(MergeSum(fa, x, y), n + m)
    case _ => a
  }

  function MergeCell(fa: FloatArith, a: DCell, b: DCell): DCell {
    if a == None then b else if b == None then a else Some(MergeDeltaValue(fa, a.value, b.value))
  }

  function MergeDelta(fa: FloatArith, a: Delta, b: Delta): Delta {
    Delta(a.count + b.count,
          map l | l in a.values.Keys + b.values.Keys :: MergeCell(fa, a.At(l), b.At(l)).value,
          a.dirty || b.dirty)
  }

  function ClampValue(d: DeltaValue): AggValue {
    match d
    case CountD(n) => CountV(if n < 0 then 0 else n)
    case SumD(s) => SumV(s)
    case MinD(v) => MinV(v)
    case MaxD(v) => MaxV(v)
    case AvgD(s, n) => AvgV(s, if n < 0 then 0 else n)
  }

  function ClampCell(d: DCell): Cell {
    if d.Some? then Some(ClampValue(d.value)) else None
  }

  /** `into_aggregate_state`: counts clamp at zero. */
  function IntoState(d: Delta): State {
    State(if d.count < 0 then 0 else d.count, map l | l in d.values :: ClampValue(d.values[l]), d.dirty)
  }

  function LiftValue(a: AggValue): DeltaValue {
    match a
    case CountV(n) => CountD(n)
    case SumV(s) => SumD(s)
    case MinV(v) => MinD(v)
    case MaxV(v) => MaxD(v)
    case AvgV(s, n) => AvgD(s, n)
  }

  /** `from_aggregate_state`: a spilled in-RAM state as one positive delta. */
  function FromState(st: State): Delta {
    Delta(st.count, map l | l in st.values :: LiftValue(st.values[l]), st.dirty)
  }

  /** Spilling a state and reading it back loses nothing. */
  lemma SpillRoundTrip(st: State)
    ensures IntoState(FromState(st)) == st
  {
    assert IntoState(FromState(st)).values == st.values;
  }

  lemma IntoStateAt(d: Delta, name: string)
    ensures IntoState(d).At(name) == ClampCell(d.At(name))
  {
  }

  /** Folding spilled partials is folding the partial states themselves. */
  lemma SpillMerges(fa: FloatArith, a: State, b: State)
    ensures MergeDelta(fa, FromState(a), FromState(b)) == FromState(Merged(fa, a, b))
  {
    var x, y := MergeDelta(fa, FromState(a), FromState(b)), FromState(Merged(fa, a, b));
    assert x.values.Keys == y.values.Keys;
    assert forall l | l in x.values :: x.values[l] == y.values[l];
  }

  // ─── Cells of merged and per-record deltas ─────────────────────────────────

  lemma MergeDeltaAt(fa: FloatArith, a: Delta, b: Delta, name: string)
    ensures MergeDelta(fa, a, b).At(name) == MergeCell(fa, a.At(name), b.At(name))
  {
  }

  lemma ForRecordAt(fa: FloatArith, fields: Fields, ms: seq<Metric>, sign: int, name: string)
    ensures ForRecord(fa, fields, ms, sign).At(name) == CellFor(fa, ms, fields, sign, name)
  {
  }

  lemma SameDCells(a: Delta, b: Delta)
    requires forall l :: a.At(l) == b.At(l)
    ensures a.values == b.values
  {
    assert forall l :: l in a.values <==> a.At(l).Some?;
    assert forall l :: l in b.values <==> b.At(l).Some?;
    assert a.values.Keys == b.values.Keys;
    assert forall l | l in a.values :: a.values[l] == a.At(l).value == b.values[l];
  }

  // ─── Same-schema deltas form a commutative monoid ──────────────────────────

  /** What a label's column holds; extremes are all integers or all text. */
  datatype Kind = KCount | KSum | KAvg | KMin(text: bool) | KMax(text: bool)

  type Schema = map<string, Kind>

  predicate StoredFits(v: Stored, text: bool) {
    v == SNull || (if text then v.SText? else v.SInt?)
  }

  predicate ValueFits(d: DeltaValue, k: Kind) {
    match k
    case KCount => d.CountD?
    case KSum => d.SumD? && d.sum.IntSum?
    case KAvg => d.AvgD? && d.total.IntSum?
    case KMin(t) => d.MinD? && StoredFits(d.low, t)
    case KMax(t) => d.MaxD? && StoredFits(d.high, t)
  }

  /** Integer sums, one kind of extreme per label. */
  predicate Fits(d: Delta, schema: Schema) {
    forall l | l in d.values :: l in schema && ValueFits(d.values[l], schema[l])
  }

  lemma StoredOrder(a: Stored, b: Stored, c: Stored, text: bool)
    requires StoredFits(a, text) && StoredFits(b, text) && StoredFits(c, text)
    ensures !(StoredLt(a, b) && StoredLt(b, a))
    ensures StoredLt(a, b) || StoredLt(b, a) || a == b
    ensures !StoredLt(a, b) && !StoredLt(b, c) ==> !StoredLt(a, c)
  {
    if text && a != SNull && b != SNull {
      CmpEqual(a.s, b.s);
      CmpFlip(a.s, b.s);
      if c != SNull {
        CmpFlip(b.s, c.s);
        CmpFlip(a.s, c.s);
        if !StoredLt(a, b) && !StoredLt(b, c) {
          LeTransitive(c.s, b.s, a.s);
        }
      }
    }
  }

  lemma MergeValueLaws(fa: FloatArith, a: DeltaValue, b: DeltaValue, c: DeltaValue, k: Kind)
    requires ValueFits(a, k) && ValueFits(b, k) && ValueFits(c, k)
    ensures ValueFits(MergeDeltaValue(fa, a, b), k)
    ensures MergeDeltaValue(fa, a, b) == MergeDeltaValue(fa, b, a)
    ensures MergeDeltaValue(fa, MergeDeltaValue(fa, a, b), c) == MergeDeltaValue(fa, a, MergeDeltaValue(fa, b, c))
  {
    match k
    case KMin(t) =>
      StoredOrder(a.low, b.low, c.low, t);
      StoredOrder(b.low, c.low, a.low, t);
      StoredOrder(c.low, a.low, b.low, t);
      StoredOrder(b.low, a.low, c.low, t);
      StoredOrder(c.low, b.low, a.low, t);
      StoredOrder(a.low, c.low, b.low, t);
    case KMax(t) =>
      StoredOrder(a.high, b.high, c.high, t);
      StoredOrder(b.high, c.high, a.high, t);
      StoredOrder(c.high, a.high, b.high, t);
      StoredOrder(b.high, a.high, c.high, t);
      StoredOrder(c.high, b.high, a.high, t);
      StoredOrder(a.high, c.high, b.high, t);
    case _ =>
  }

  lemma MergeFits(fa: FloatArith, a: Delta, b: Delta, schema: Schema)
    requires Fits(a, schema) && Fits(b, schema)
    ensures Fits(MergeDelta(fa, a, b), schema)
  {
    var m := MergeDelta(fa, a, b);
    forall l | l in m.values ensures l in schema && ValueFits(m.values[l], schema[l]) {
      if l in a.values && l in b.values {
        MergeValueLaws(fa, a.values[l], b.values[l], b.values[l], schema[l]);
      }
    }
  }

  lemma MergeCommutes(fa: FloatArith, a: Delta, b: Delta, schema: Schema)
    requires Fits(a, schema) && Fits(b, schema)
    ensures MergeDelta(fa, a, b) == MergeDelta(fa, b, a)
  {
    forall l ensures MergeDelta(fa, a, b).At(l) == MergeDelta(fa, b, a).At(l) {
      if l in a.values && l in b.values {
        MergeValueLaws(fa, a.values[l], b.values[l], b.values[l], schema[l]);
      }
    }
    SameDCells(MergeDelta(fa, a, b), MergeDelta(fa, b, a));
  }

  lemma MergeAssociates(fa: FloatArith, a: Delta, b: Delta, c: Delta, schema: Schema)
    requires Fits(a, schema) && Fits(b, schema) && Fits(c, schema)
    ensures MergeDelta(fa, MergeDelta(fa, a, b), c) == MergeDelta(fa, a, MergeDelta(fa, b, c))
  {
    var ab, bc := MergeDelta(fa, a, b), MergeDelta(fa, b, c);
    var x, y := MergeDelta(fa, ab, c), MergeDelta(fa, a, bc);
    forall l ensures x.At(l) == y.At(l) {
      MergeDeltaAt(fa, a, b, l);
      MergeDeltaAt(fa, b, c, l);
      MergeDeltaAt(fa, ab, c, l);
      MergeDeltaAt(fa, a, bc, l);
      if l in a.values && l in b.values && l in c.values {
        MergeValueLaws(fa, a.values[l], b.values[l], c.values[l], schema[l]);
      }
    }
    SameDCells(x, y);
  }

  lemma MergeUnit(fa: FloatArith, a: Delta)
    ensures MergeDelta(fa, NO_DELTA, a) == a && MergeDelta(fa, a, NO_DELTA) == a
  {
    SameDCells(MergeDelta(fa, NO_DELTA, a), a);
    SameDCells(MergeDelta(fa, a, NO_DELTA), a);
  }

  // ─── Folding ───────────────────────────────────────────────────────────────

  /** The merge operator's loop: start from nothing, fold each in turn. */
  function Fold(fa: FloatArith, ds: seq<Delta>): Delta {
    if ds == [] then NO_DELTA else MergeDelta(fa, Fold(fa, ds[..|ds| - 1]), ds[|ds| - 1])
  }

  predicate AllFit(ds: seq<Delta>, schema: Schema) {
    forall k | 0 <= k < |ds| :: Fits(ds[k], schema)
  }

  lemma {:induction false} FoldFits(fa: FloatArith, ds: seq<Delta>, schema: Schema)
    requires AllFit(ds, schema)
    ensures Fits(Fold(fa, ds), schema)
  {
    if ds != [] {
      FoldFits(fa, ds[..|ds| - 1], schema);
      MergeFits(fa, Fold(fa, ds[..|ds| - 1]), ds[|ds| - 1], schema);
    }
  }

  lemma {:induction false} FoldConcat(fa: FloatArith, xs: seq<Delta>, ys: seq<Delta>, schema: Schema)
    requires AllFit(xs, schema) && AllFit(ys, schema)
    ensures Fold(fa, xs + ys) == MergeDelta(fa, Fold(fa, xs), Fold(fa, ys))
  {
    if ys == [] {
      assert xs + ys == xs;
      MergeUnit(fa, Fold(fa, xs));
    } else {
      var front, last := ys[..|ys| - 1], ys[|ys| - 1];
      assert (xs + ys)[..|xs + ys| - 1] == xs + front;
      FoldConcat(fa, xs, front, schema);
      FoldFits(fa, xs, schema);
      FoldFits(fa, front, schema);
      MergeAssociates(fa, Fold(fa, xs), Fold(fa, front), last, schema);
    }
  }

  lemma FoldOne(fa: FloatArith, d: Delta)
    ensures Fold(fa, [d]) == d
  {
    assert [d][..0] == [];
    MergeUnit(fa, d);
  }

  /** A delta folded in the middle might as well have been folded last. */
  lemma FoldMoveLast(fa: FloatArith, before: seq<Delta>, d: Delta, after: seq<Delta>, schema: Schema)
    requires AllFit(before, schema) && Fits(d, schema) && AllFit(after, schema)
    ensures Fold(fa, before + ([d] + after)) == MergeDelta(fa, Fold(fa, before + after), d)
  {
    FoldConcat(fa, before, [d] + after, schema);
    FoldConcat(fa, [d], after, schema);
    FoldConcat(fa, before, after, schema);
    FoldOne(fa, d);
    FoldFits(fa, before, schema);
    FoldFits(fa, after, schema);
    MergeCommutes(fa, d, Fold(fa, after), schema);
    MergeAssociates(fa, Fold(fa, before), Fold(fa, after), d, schema);
  }

  /** Any order: folding depends only on the multiset of deltas. */
  lemma {:induction false} FoldAnyOrder(fa: FloatArith, xs: seq<Delta>, ys: seq<Delta>, schema: Schema)
    requires AllFit(xs, schema) && multiset(xs) == multiset(ys)
    ensures AllFit(ys, schema) && Fold(fa, xs) == Fold(fa, ys)
    decreases |xs|
  {
    forall k | 0 <= k < |ys| ensures Fits(ys[k], schema) {
      assert ys[k] in multiset(xs);
    }
    if xs == [] {
      assert |multiset(xs)| == 0 && |multiset(ys)| == |ys|;
    } else {
      var j := RemoveOne(xs, ys);
      FoldAnyOrder(fa, xs[..|xs| - 1], ys[..j] + ys[j + 1..], schema);
      FoldMoveLast(fa, ys[..j], ys[j], ys[j + 1..], schema);
    }
  }

  /** A schedule of merges: which deltas were folded with which, at any depth. */
  datatype Grouping = One(d: Delta) | Pair(left: Grouping, right: Grouping)

  function Leaves(g: Grouping): seq<Delta> {
    match g
    case One(d) => [d]
    case Pair(l, r) => Leaves(l) + Leaves(r)
  }

  function FoldGrouping(fa: FloatArith, g: Grouping): Delta {
    match g
    case One(d) => d
    case Pair(l, r) => MergeDelta(fa, FoldGrouping(fa, l), FoldGrouping(fa, r))
  }

  /** Any grouping: however the merges nest, the result is the flat fold. */
  lemma {:induction false} FoldAnyGrouping(fa: FloatArith, g: Grouping, schema: Schema)
    requires AllFit(Leaves(g), schema)
    ensures FoldGrouping(fa, g) == Fold(fa, Leaves(g))
  {
    match g
    case One(d) => FoldOne(fa, d);
    case Pair(l, r) =>
      forall k | 0 <= k < |Leaves(l)| ensures Fits(Leaves(l)[k], schema) {
        assert Leaves(g)[k] == Leaves(l)[k];
      }
      forall k | 0 <= k < |Leaves(r)| ensures Fits(Leaves(r)[k], schema) {
        assert Leaves(g)[|Leaves(l)| + k] == Leaves(r)[k];
      }
      FoldAnyGrouping(fa, l, schema);
      FoldAnyGrouping(fa, r, schema);
      FoldConcat(fa, Leaves(l), Leaves(r), schema);
  }

  // ─── The mutable delta ─────────────────────────────────────────────────────

  function PutD(values: map<string, DeltaValue>, name: string, c: DCell): map<string, DeltaValue> {
    if c.Some? then values[name := c.value] else values
  }

  lemma RecordStep(fa: FloatArith, fields: Fields, ms: seq<Metric>, sign: int, k: nat)
    requires DistinctLabels(ms) && k < |ms|
    ensures var prev, next := ForRecord(fa, fields, ms[..k], sign), ForRecord(fa, fields, ms[..k + 1], sign);
            next.values == PutD(prev.values, ms[k].name, RecordCell(fa, ms[k], fields, sign))
            && next.dirty == (prev.dirty || Soils(ms[k], fields, sign))
  {
    var m := ms[k];
    var prev, next := ForRecord(fa, fields, ms[..k], sign), ForRecord(fa, fields, ms[..k + 1], sign);
    var put := next.(values := PutD(prev.values, m.name, RecordCell(fa, m, fields, sign)));
    assert m.name !in Labels(ms[..k]);
    forall l ensures next.At(l) == put.At(l) {
      ForRecordAt(fa, fields, ms[..k], sign, l);
      ForRecordAt(fa, fields, ms[..k + 1], sign, l);
      MetricForPrefix(ms, k, l);
    }
    SameDCells(next, put);
    assert forall j | 0 <= j < k :: ms[..k + 1][j] == ms[..k][j];
    assert ms[..k + 1][k] == m;
  }

  function WithoutD(other: Delta, keys: set<string>): Delta {
    other.(values := map l | l in other.values && l !in keys :: other.values[l])
  }

  lemma MergeDeltaStep(fa: FloatArith, d: Delta, other: Delta, keys: set<string>, name: string)
    requires name in keys && keys <= other.values.Keys
    ensures var prev := MergeDelta(fa, d, WithoutD(other, keys));
            prev.At(name) == d.At(name)
            && MergeDelta(fa, d, WithoutD(other, keys - {name})).values
               == PutD(prev.values, name, MergeCell(fa, d.At(name), other.At(name)))
  {
    var prev := MergeDelta(fa, d, WithoutD(other, keys));
    var next := MergeDelta(fa, d, WithoutD(other, keys - {name}));
    var put := next.(values := PutD(prev.values, name, MergeCell(fa, d.At(name), other.At(name))));
    MergeDeltaAt(fa, d, WithoutD(other, keys), name);
    forall l ensures next.At(l) == put.At(l) {
      MergeDeltaAt(fa, d, WithoutD(other, keys), l);
      MergeDeltaAt(fa, d, WithoutD(other, keys - {name}), l);
    }
    SameDCells(next, put);
  }

  class RollupDelta {
    var count: int
    var values: map<string, DeltaValue>
    var dirty: bool

    function View(): Delta
      reads this
    {
      Delta(count, values, dirty)
    }

    /** The delta of one insert (`sign` 1) or one removal (`sign` -1). */
    constructor Of(fa: FloatArith, fields: Fields, ms: seq<Metric>, sign: int)
      requires DistinctLabels(ms)
      ensures View() == ForRecord(fa, fields, ms, sign)
    {
      count, values, dirty := sign, map[], false;
      new;
      for i := 0 to |ms|
        invariant View() == ForRecord(fa, fields, ms[..i], sign)
      {
        RecordStep(fa, fields, ms, sign, i);
        RecordMetric(fa, fields, ms[i], sign);
      }
      assert ms[..|ms|] == ms;
    }

    method RecordMetric(fa: FloatArith, fields: Fields, m: Metric, sign: int)
      modifies this`values, this`dirty
      ensures values == PutD(old(values), m.name, RecordCell(fa, m, fields, sign))
      ensures dirty == (old(dirty) || Soils(m, fields, sign))
    {
      var v := m.Contribution(fields);
      if v == None {
        return;
      }
      match m.op
      case CountOp =>
        values := values[m.name := CountD(sign)];
      case SumOp =>
        values := values[m.name := SumD(AddScaled(fa, IntSum(0), v.value, sign))];
      case MinOp =>
        if sign < 0 { dirty := true; }
        values := values[m.name := MinD(if sign < 0 then SNull else StoredOf(v.value))];
      case MaxOp =>
        if sign < 0 { dirty := true; }
        values := values[m.name := MaxD(if sign < 0 then SNull else StoredOf(v.value))];
      case AvgOp =>
        values := values[m.name := AvgD(AddScaled(fa, IntSum(0), v.value, sign), sign)];
    }

    constructor ()
      ensures View() == NO_DELTA
    {
      count, values, dirty := 0, map[], false;
    }

    method Merge(fa: FloatArith, other: Delta)
      modifies this
      ensures View() == MergeDelta(fa, old(View()), other)
    {
      count, dirty := count + other.count, dirty || other.dirty;
      ghost var before := old(View());
      var keys := other.values.Keys;
      SameDCells(MergeDelta(fa, before, WithoutD(other, keys)), before);
      while keys != {}
        invariant keys <= other.values.Keys
        invariant View() == MergeDelta(fa, before, WithoutD(other, keys))
        decreases keys
      {
        var l :| l in keys;
        MergeDeltaStep(fa, before, other, keys, l);
        if l !in values {
          values := values[l := other.values[l]];
        } else {
          values := values[l := MergeDeltaValue(fa, values[l], other.values[l])];
        }
        keys := keys - {l};
      }
      assert WithoutD(other, {}) == other;
    }
  }
}
