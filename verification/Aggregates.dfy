/**
 The in-RAM aggregate of one ghost group: metrics, accumulators, and the
 add / subtract / merge that keep a group's state up to date on every write.

 States are specified label by label ("cells"); the mutable class carries the
 loops of the source and is proved to compute exactly that specification.
 */
module Aggregates {
  import opened Bytes
  import opened Values
  import opened Filters

  datatype AggOp = CountOp | SumOp | MinOp | MaxOp | AvgOp

  datatype Metric = Metric(field: string, op: AggOp, name: string, filter: Option<FilterExpr>) {
    /** An unconditional `count()` is the group total, not a cell of its own. */
    predicate RidesTotalCount() {
      op == CountOp && name == "count"
    }

    /** What a record feeds into this metric, if anything (Null stands for "counted"). */
    function Contribution(fields: Fields): Option<Value> {
      if RidesTotalCount() || !MatchesOpt(fields, filter) then None
      else if op == CountOp then Some(Null)
      else Filters.Lookup(fields, field)
    }
  }

  predicate DistinctLabels(ms: seq<Metric>) {
    forall i, j | 0 <= i < j < |ms| :: ms[i].name != ms[j].name
  }

  function Labels(ms: seq<Metric>): set<string> {
    set k | 0 <= k < |ms| :: ms[k].name
  }

  /** The metric emitting under a label. */
  function MetricFor(ms: seq<Metric>, name: string): (m: Option<Metric>)
    ensures m.Some? <==> name in Labels(ms)
    ensures m.Some? ==> m.value in ms && m.value.name == name
  {
    if ms == [] then None
    else if ms[|ms| - 1].name == name then Some(ms[|ms| - 1])
    else
      assert forall k | 0 <= k < |ms| && ms[k].name == name :: k < |ms| - 1 && ms[..|ms| - 1][k] == ms[k];
      MetricFor(ms[..|ms| - 1], name)
  }

  // ─── Sum accumulator ───────────────────────────────────────────────────────

  /** The double arithmetic a float sum runs on; nothing is assumed about it. */
  datatype FloatArith = FloatArith(add: (F64, F64) -> F64, sub: (F64, F64) -> F64, neg: F64 -> F64,
                                   absGe: (F64, F64) -> bool, ofInt: int -> F64)

  datatype SumAcc = IntSum(acc: int) | FloatSum(sum: F64, comp: F64)

  /** Neumaier's compensated addition. */
  function NeumaierAdd(fa: FloatArith, s: SumAcc, x: F64): SumAcc
    requires s.FloatSum?
  {
    var t := fa.add(s.sum, x);
    var lost := if fa.absGe(s.sum, x) then fa.add(fa.sub(s.sum, t), x) else fa.add(fa.sub(x, t), s.sum);
    FloatSum(t, fa.add(s.comp, lost))
  }

  /** The first float promotes an integer accumulator. */
  function Promote(fa: FloatArith, s: SumAcc): (r: SumAcc)
    ensures r.FloatSum?
  {
    if s.IntSum? then FloatSum(fa.ofInt(s.acc), 0) else s
  }

  function AddScaled(fa: FloatArith, s: SumAcc, v: Value, sign: int): SumAcc {
    match v
    case Int(i) => if s.IntSum? then IntSum(s.acc + i * sign) else NeumaierAdd(fa, s, fa.ofInt(i * sign))
    case Float(f) => NeumaierAdd(fa, Promote(fa, s), if sign < 0 then fa.neg(f) else f)
    case _ => s
  }

  function MergeSum(fa: FloatArith, a: SumAcc, b: SumAcc): SumAcc {
    match b
    case IntSum(n) => if a.IntSum? then IntSum(a.acc + n) else NeumaierAdd(fa, a, fa.ofInt(n))
    case FloatSum(os, oc) =>
      var s := NeumaierAdd(fa, Promote(fa, a), os);
      FloatSum(s.sum, fa.add(s.comp, oc))
  }

  predicate Numeric(v: Value) {
    v.Int? || v.Float?
  }

  // ─── Extremes ──────────────────────────────────────────────────────────────

  datatype Stored = SNull | SInt(i: I64) | SFloat(f: F64) | SText(s: seq<Byte>)

  function StoredOf(v: Value): Stored {
    match v
    case Int(i) => SInt(i)
    case Float(f) => SFloat(f)
    case Text(s) => SText(s)
    case _ => SNull
  }

  function StoredCmp(a: Stored, b: Stored): Option<Ordering> {
    match (a, b)
    case (SNull, SNull) => Some(Ordering.Equal)
    case (SNull, _) => Some(Less)
    case (_, SNull) => Some(Greater)
    case (SInt(x), SInt(y)) => Some(IntCmp(x, y))
    case (SFloat(x), SFloat(y)) => F64Cmp(x, y)
    case (SText(x), SText(y)) => Some(Cmp(x, y))
    case (SInt(x), SFloat(y)) => F64Cmp(IntToF64(x), y)
    case (SFloat(x), SInt(y)) => F64Cmp(x, IntToF64(y))
    case _ => None
  }

  predicate StoredLt(a: Stored, b: Stored) {
    StoredCmp(a, b) == Some(Less)
  }

  // ─── Cells ─────────────────────────────────────────────────────────────────

  datatype AggValue =
    | CountV(n: nat)
    | SumV(sum: SumAcc)
    | MinV(low: Stored)
    | MaxV(high: Stored)
    | AvgV(total: SumAcc, n: nat)

  function NewValue(op: AggOp): AggValue {
    match op
    case CountOp => CountV(0)
    case SumOp => SumV(IntSum(0))
    case MinOp => MinV(SNull)
    case MaxOp => MaxV(SNull)
    case AvgOp => AvgV(IntSum(0), 0)
  }

  function AddValue(fa: FloatArith, a: AggValue, v: Value): AggValue {
    match a
    case CountV(n) => CountV(n + 1)
    case SumV(s) => SumV(AddScaled(fa, s, v, 1))
    case MinV(cur) => if cur == SNull || StoredLt(StoredOf(v), cur) then MinV(StoredOf(v)) else a
    case MaxV(cur) => if cur == SNull || StoredLt(cur, StoredOf(v)) then MaxV(StoredOf(v)) else a
    case AvgV(s, n) => if Numeric(v) then AvgV(AddScaled(fa, s, v, 1), n + 1) else a
  }

  function SaturatingDec(n: nat): nat {
    if n == 0 then 0 else n - 1
  }

  function SubtractValue(fa: FloatArith, a: AggValue, v: Value): AggValue {
    match a
    case CountV(n) => CountV(SaturatingDec(n))
    case SumV(s) => SumV(AddScaled(fa, s, v, -1))
    case AvgV(s, n) => if Numeric(v) then AvgV(AddScaled(fa, s, v, -1), SaturatingDec(n)) else a
    case MinV(_) => a
    case MaxV(_) => a
  }

  function MergeValue(fa: FloatArith, a: AggValue, b: AggValue): AggValue {
    match (a, b)
    case (CountV(x), CountV(y)) => CountV(x + y)
    case (SumV(x), SumV(y)) => SumV(MergeSum(fa, x, y))
    case (MinV(x), MinV(y)) => if y != SNull && (x == SNull || StoredLt(y, x)) then b else a
    case (MaxV(x), MaxV(y)) => if y != SNull && (x == SNull || StoredLt(x, y)) then b else a
    case (AvgV(x, n), AvgV(y, m)) => AvgV(MergeSum(fa, x, y), n + m)
    case _ => a
  }

  type Cell = Option<AggValue>

  /** One metric's cell after a record arrives. */
  function AddCell(fa: FloatArith, m: Metric, fields: Fields, c: Cell): Cell {
    match m.Contribution(fields)
    case None => c
    case Some(v) =>
      var a := if c.Some? then c.value else NewValue(m.op);
      if m.op == CountOp then Some(if a.CountV? then CountV(a.n + 1) else a)
      else Some(AddValue(fa, a, v))
  }

  /** One metric's cell after a record leaves. */
  function SubtractCell(fa: FloatArith, m: Metric, fields: Fields, c: Cell): Cell {
    match (m.Contribution(fields), c)
    case (Some(v), Some(a)) =>
      if m.op == CountOp then Some(if a.CountV? then CountV(SaturatingDec(a.n)) else a)
      else Some(SubtractValue(fa, a, v))
    case _ => c
  }

  /** A departing record leaves an extreme possibly stale. */
  predicate Stales(m: Metric, fields: Fields, c: Cell) {
    m.op != CountOp && m.Contribution(fields).Some? && c.Some? && (c.value.MinV? || c.value.MaxV?)
  }

  // ─── States ────────────────────────────────────────────────────────────────

  datatype State = State(count: nat, values: map<string, AggValue>, dirty: bool) {
    function At(name: string): Cell {
      if name in values then Some(values[name]) else None
    }
  }

  const EMPTY_STATE := State(0, map[], false)

  function CellAfterAdd(fa: FloatArith, ms: seq<Metric>, fields: Fields, name: string, c: Cell): Cell {
    match MetricFor(ms, name)
    case Some(m) => AddCell(fa, m, fields, c)
    case None => c
  }

  function CellAfterSubtract(fa: FloatArith, ms: seq<Metric>, fields: Fields, name: string, c: Cell): Cell {
    match MetricFor(ms, name)
    case Some(m) => SubtractCell(fa, m, fields, c)
    case None => c
  }

  function Added(fa: FloatArith, st: State, fields: Fields, ms: seq<Metric>): State {
    State(st.count + 1,
          map l | l in st.values.Keys + Labels(ms) && CellAfterAdd(fa, ms, fields, l, st.At(l)).Some?
            :: CellAfterAdd(fa, ms, fields, l, st.At(l)).value,
          st.dirty)
  }

  function Subtracted(fa: FloatArith, st: State, fields: Fields, ms: seq<Metric>): State {
    State(SaturatingDec(st.count),
          map l | l in st.values :: CellAfterSubtract(fa, ms, fields, l, st.At(l)).value,
          st.dirty || exists k | 0 <= k < |ms| :: Stales(ms[k], fields, st.At(ms[k].name)))
  }

  function Merged(fa: FloatArith, a: State, b: State): State {
    State(a.count + b.count,
          map l | l in a.values.Keys + b.values.Keys ::
            if l !in a.values then b.values[l]
            else if l !in b.values then a.values[l]
            else MergeValue(fa, a.values[l], b.values[l]),
          a.dirty || b.dirty)
  }

  /** Distinct labels: each metric finds itself. */
  lemma {:induction false} MetricForMember(ms: seq<Metric>, k: nat)
    requires DistinctLabels(ms) && k < |ms|
    ensures MetricFor(ms, ms[k].name) == Some(ms[k])
  {
    if k < |ms| - 1 {
      MetricForMember(ms[..|ms| - 1], k);
    }
  }

  lemma MetricForPrefix(ms: seq<Metric>, k: nat, name: string)
    requires DistinctLabels(ms) && k < |ms|
    ensures MetricFor(ms[..k + 1], name) == if name == ms[k].name then Some(ms[k]) else MetricFor(ms[..k], name)
  {
    assert ms[..k + 1][..k] == ms[..k];
  }

  function Put(values: map<string, AggValue>, name: string, c: Cell): map<string, AggValue> {
    if c.Some? then values[name := c.value] else values
  }

  lemma AddedAt(fa: FloatArith, st: State, fields: Fields, ms: seq<Metric>, name: string)
    ensures Added(fa, st, fields, ms).At(name) == CellAfterAdd(fa, ms, fields, name, st.At(name))
  {
  }

  lemma SubtractedAt(fa: FloatArith, st: State, fields: Fields, ms: seq<Metric>, name: string)
    ensures Subtracted(fa, st, fields, ms).At(name) == CellAfterSubtract(fa, ms, fields, name, st.At(name))
  {
  }

  /** Two states with the same cells have the same values. */
  lemma SameCells(a: State, b: State)
    requires forall l :: a.At(l) == b.At(l)
    ensures a.values == b.values
  {
    assert forall l :: l in a.values <==> a.At(l).Some?;
    assert forall l :: l in b.values <==> b.At(l).Some?;
    assert a.values.Keys == b.values.Keys;
    assert forall l | l in a.values :: a.values[l] == a.At(l).value == b.values[l];
  }

  lemma AddedNothing(fa: FloatArith, st: State, fields: Fields)
    ensures Added(fa, st, fields, []).values == st.values
  {
    forall l ensures Added(fa, st, fields, []).At(l) == st.At(l) {
      AddedAt(fa, st, fields, [], l);
    }
    SameCells(Added(fa, st, fields, []), st);
  }

  /** The state after one more metric of the list is the state before it with one cell replaced. */
  lemma AddStep(fa: FloatArith, st: State, fields: Fields, ms: seq<Metric>, k: nat)
    requires DistinctLabels(ms) && k < |ms|
    ensures var prev := Added(fa, st, fields, ms[..k]);
            prev.At(ms[k].name) == st.At(ms[k].name)
            && Added(fa, st, fields, ms[..k + 1]).values
               == Put(prev.values, ms[k].name, AddCell(fa, ms[k], fields, st.At(ms[k].name)))
  {
    var m := ms[k];
    var prev, next := Added(fa, st, fields, ms[..k]), Added(fa, st, fields, ms[..k + 1]);
    AddedAt(fa, st, fields, ms[..k], m.name);
    var put := next.(values := Put(prev.values, m.name, AddCell(fa, m, fields, st.At(m.name))));
    forall l ensures next.At(l) == put.At(l) {
      AddedAt(fa, st, fields, ms[..k], l);
      AddedAt(fa, st, fields, ms[..k + 1], l);
      MetricForPrefix(ms, k, l);
    }
    SameCells(next, put);
  }

  lemma SubtractStep(fa: FloatArith, st: State, fields: Fields, ms: seq<Metric>, k: nat)
    requires DistinctLabels(ms) && k < |ms|
    ensures var prev := Subtracted(fa, st, fields, ms[..k]);
            var next := Subtracted(fa, st, fields, ms[..k + 1]);
            prev.At(ms[k].name) == st.At(ms[k].name)
            && next.values == Put(prev.values, ms[k].name, SubtractCell(fa, ms[k], fields, st.At(ms[k].name)))
            && next.dirty == (prev.dirty || Stales(ms[k], fields, st.At(ms[k].name)))
  {
    var m := ms[k];
    var prev, next := Subtracted(fa, st, fields, ms[..k]), Subtracted(fa, st, fields, ms[..k + 1]);
    SubtractedAt(fa, st, fields, ms[..k], m.name);
    var put := next.(values := Put(prev.values, m.name, SubtractCell(fa, m, fields, st.At(m.name))));
    forall l ensures next.At(l) == put.At(l) {
      SubtractedAt(fa, st, fields, ms[..k], l);
      SubtractedAt(fa, st, fields, ms[..k + 1], l);
      MetricForPrefix(ms, k, l);
    }
    SameCells(next, put);
    assert forall j | 0 <= j < k :: ms[..k + 1][j] == ms[..k][j];
    assert ms[..k + 1][k] == m;
  }

  function Without(other: State, keys: set<string>): State {
    other.(values := map l | l in other.values && l !in keys :: other.values[l])
  }

  lemma MergeStep(fa: FloatArith, st: State, other: State, keys: set<string>, name: string)
    requires name in keys && keys <= other.values.Keys
    ensures var prev := Merged(fa, st, Without(other, keys));
            prev.At(name) == st.At(name)
            && Merged(fa, st, Without(other, keys - {name})).values
               == prev.values[name := if name in st.values then MergeValue(fa, st.values[name], other.values[name])
                                      else other.values[name]]
  {
  }

  class AggregateState {
    var count: nat
    var values: map<string, AggValue>
    var dirty: bool

    function View(): State
      reads this
    {
      State(count, values, dirty)
    }

    constructor ()
      ensures View() == EMPTY_STATE
    {
      count, values, dirty := 0, map[], false;
    }

    /** One metric of an add: find or create its cell and fold the value in. */
    method AddMetric(fa: FloatArith, fields: Fields, m: Metric)
      modifies this`values
      ensures values == Put(old(values), m.name, AddCell(fa, m, fields, old(View()).At(m.name)))
    {
      var v := m.Contribution(fields);
      if v.Some? {
        if m.op == CountOp {
          var entry := if m.name in values then values[m.name] else CountV(0);
          values := values[m.name := if entry.CountV? then CountV(entry.n + 1) else entry];
        } else {
          var entry := if m.name in values then values[m.name] else NewValue(m.op);
          values := values[m.name := AddValue(fa, entry, v.value)];
        }
      }
    }

    /** Fold a record in: the total always moves, each metric only if its filter passes. */
    method Add(fa: FloatArith, fields: Fields, ms: seq<Metric>)
      requires DistinctLabels(ms)
      modifies this
      ensures View() == Added(fa, old(View()), fields, ms)
    {
      count := count + 1;
      ghost var before := old(View());
      AddedNothing(fa, before, fields);
      for i := 0 to |ms|
        invariant count == before.count + 1 && dirty == before.dirty
        invariant values == Added(fa, before, fields, ms[..i]).values
      {
        AddStep(fa, before, fields, ms, i);
        AddMetric(fa, fields, ms[i]);
      }
      assert ms[..|ms|] == ms;
    }

    /** One metric of a subtract: an existing cell loses the value, an extreme goes dirty. */
    method SubtractMetric(fa: FloatArith, fields: Fields, m: Metric)
      modifies this`values, this`dirty
      ensures values == Put(old(values), m.name, SubtractCell(fa, m, fields, old(View()).At(m.name)))
      ensures dirty == (old(dirty) || Stales(m, fields, old(View()).At(m.name)))
    {
      var v := m.Contribution(fields);
      if v.Some? && m.name in values {
        var entry := values[m.name];
        if m.op == CountOp {
          values := values[m.name := if entry.CountV? then CountV(SaturatingDec(entry.n)) else entry];
        } else {
          values := values[m.name := SubtractValue(fa, entry, v.value)];
          if entry.MinV? || entry.MaxV? {
            dirty := true;
          }
        }
      }
    }

    /** Take a record out: counts and sums exactly, extremes only marked dirty. */
    method Subtract(fa: FloatArith, fields: Fields, ms: seq<Metric>)
      requires DistinctLabels(ms)
      modifies this
      ensures View() == Subtracted(fa, old(View()), fields, ms)
    {
      count := SaturatingDec(count);
      ghost var before := old(View());
      for i := 0 to |ms|
        invariant View() == Subtracted(fa, before, fields, ms[..i])
      {
        SubtractStep(fa, before, fields, ms, i);
        SubtractMetric(fa, fields, ms[i]);
      }
      assert ms[..|ms|] == ms;
    }

    /** Fold a partial state of the same ghost in. */
    method Merge(fa: FloatArith, other: State)
      modifies this
      ensures View() == Merged(fa, old(View()), other)
    {
      count, dirty := count + other.count, dirty || other.dirty;
      ghost var before := old(View());
      var keys := other.values.Keys;
      while keys != {}
        invariant keys <= other.values.Keys
        invariant View() == Merged(fa, before, Without(other, keys))
        decreases keys
      {
        var l :| l in keys;
        MergeStep(fa, before, other, keys, l);
        if l !in values {
          values := values[l := other.values[l]];
        } else {
          values := values[l := MergeValue(fa, values[l], other.values[l])];
        }
        keys := keys - {l};
      }
      assert Without(other, {}) == other;
    }
  }
}
