/**
 One group's write history, seen three ways: the in-RAM state updated in
 order, the signed deltas folded in any order and grouping, and a reference
 that only looks at which records are live and which were ever added.
 */
module RollupHistory {
  import opened Bytes
  import opened Values
  import opened Filters
  import opened Aggregates
  import opened Deltas

  datatype Event = Event(fields: Fields, isAdd: bool)

  type History = seq<Event>

  function RemoveFirst(xs: seq<Fields>, x: Fields): seq<Fields> {
    if xs == [] then [] else if xs[0] == x then xs[1..] else [xs[0]] + RemoveFirst(xs[1..], x)
  }

  /** The records of the group still present after a history, oldest first. */
  function Live(h: History): seq<Fields> {
    if h == [] then []
    else
      var before, e := Live(h[..|h| - 1]), h[|h| - 1];
      if e.isAdd then before + [e.fields] else RemoveFirst(before, e.fields)
  }

  /** Every removal is of a record added earlier and still live. */
  predicate Valid(h: History) {
    h == [] || (var e := h[|h| - 1];
                Valid(h[..|h| - 1]) && (!e.isAdd ==> e.fields in Live(h[..|h| - 1])))
  }

  predicate Over(h: History, universe: iset<Fields>) {
    forall k | 0 <= k < |h| :: h[k].fields in universe
  }

  /** The in-RAM state after the history, maintained write by write. */
  function InRam(fa: FloatArith, h: History, ms: seq<Metric>): State {
    if h == [] then EMPTY_STATE
    else
      var before, e := InRam(fa, h[..|h| - 1], ms), h[|h| - 1];
      if e.isAdd then Added(fa, before, e.fields, ms) else Subtracted(fa, before, e.fields, ms)
  }

  function Sign(e: Event): int {
    if e.isAdd then 1 else -1
  }

  function DeltaOf(fa: FloatArith, e: Event, ms: seq<Metric>): Delta {
    ForRecord(fa, e.fields, ms, Sign(e))
  }

  function DeltasOf(fa: FloatArith, h: History, ms: seq<Metric>): seq<Delta> {
    seq(|h|, k requires 0 <= k < |h| => DeltaOf(fa, h[k], ms))
  }

  // ─── Sums over the live records ────────────────────────────────────────────

  function Fed(m: Metric, f: Fields): int {
    if m.Contribution(f).Some? then 1 else 0
  }

  function Amount(m: Metric, f: Fields): int {
    match m.Contribution(f)
    case Some(Int(i)) => i
    case _ => 0
  }

  function SumBy(g: Fields -> int, xs: seq<Fields>): int {
    if xs == [] then 0 else g(xs[0]) + SumBy(g, xs[1..])
  }

  function TotalFed(m: Metric, xs: seq<Fields>): int {
    SumBy(f => Fed(m, f), xs)
  }

  function TotalAmount(m: Metric, xs: seq<Fields>): int {
    SumBy(f => Amount(m, f), xs)
  }

  lemma {:induction false} SumByAppend(g: Fields -> int, xs: seq<Fields>, x: Fields)
    ensures SumBy(g, xs + [x]) == SumBy(g, xs) + g(x)
  {
    if xs != [] {
      assert (xs + [x])[1..] == xs[1..] + [x];
      SumByAppend(g, xs[1..], x);
    }
  }

  lemma {:induction false} SumByRemove(g: Fields -> int, xs: seq<Fields>, x: Fields)
    requires x in xs
    ensures SumBy(g, RemoveFirst(xs, x)) == SumBy(g, xs) - g(x)
  {
    if xs[0] != x {
      SumByRemove(g, xs[1..], x);
      var r := [xs[0]] + RemoveFirst(xs[1..], x);
      assert r[1..] == RemoveFirst(xs[1..], x);
    }
  }

  lemma {:induction false} TotalFedBound(m: Metric, xs: seq<Fields>, x: Fields)
    ensures TotalFed(m, xs) >= 0
    ensures x in xs ==> TotalFed(m, xs) >= Fed(m, x)
  {
    if xs != [] {
      TotalFedBound(m, xs[1..], x);
    }
  }

  lemma {:induction false} NothingFed(m: Metric, xs: seq<Fields>)
    requires forall x | x in xs :: m.Contribution(x) == None
    ensures TotalFed(m, xs) == 0 && TotalAmount(m, xs) == 0
  {
    if xs != [] {
      assert xs[0] in xs;
      NothingFed(m, xs[1..]);
    }
  }

  lemma {:induction false} RemovedSubset(xs: seq<Fields>, x: Fields)
    ensures forall y | y in RemoveFirst(xs, x) :: y in xs
    ensures x in xs ==> |RemoveFirst(xs, x)| == |xs| - 1
  {
    if xs != [] && xs[0] != x {
      RemovedSubset(xs[1..], x);
    }
  }

  // ─── The reference ─────────────────────────────────────────────────────────

  /** Some added record fed this metric. */
  predicate Touched(m: Metric, h: History) {
    exists k | 0 <= k < |h| :: h[k].isAdd && m.Contribution(h[k].fields).Some?
  }

  function Lower(x: Stored, y: Stored): Stored {
    if y != SNull && (x == SNull || StoredLt(y, x)) then y else x
  }

  function Higher(x: Stored, y: Stored): Stored {
    if y != SNull && (x == SNull || StoredLt(x, y)) then y else x
  }

  function Absorb(m: Metric, ends: (Stored, Stored), f: Fields): (Stored, Stored) {
    match m.Contribution(f)
    case Some(v) => (Lower(ends.0, StoredOf(v)), Higher(ends.1, StoredOf(v)))
    case None => ends
  }

  /** Least and greatest value ever added for a metric. */
  function Extremes(m: Metric, h: History): (Stored, Stored) {
    if h == [] then (SNull, SNull)
    else
      var ends, e := Extremes(m, h[..|h| - 1]), h[|h| - 1];
      if e.isAdd then Absorb(m, ends, e.fields) else ends
  }

  /** Signed reference cell: totals over the live records, extremes over the added ones. */
  function ReferenceCell(m: Metric, h: History): DCell {
    if !Touched(m, h) then None
    else
      var live := Live(h);
      Some(match m.op
           case CountOp => CountD(TotalFed(m, live))
           case SumOp => SumD(IntSum(TotalAmount(m, live)))
           case AvgOp => AvgD(IntSum(TotalAmount(m, live)), TotalFed(m, live))
           case MinOp => MinD(Extremes(m, h).0)
           case MaxOp => MaxD(Extremes(m, h).1))
  }

  /** Some removal took out a record that fed a Min or Max. */
  predicate ReferenceDirty(ms: seq<Metric>, h: History) {
    exists k, j | 0 <= k < |h| && 0 <= j < |ms| :: !h[k].isAdd && Soils(ms[j], h[k].fields, -1)
  }

  // ─── Conditions ────────────────────────────────────────────────────────────

  /** Float sums are order-sensitive by nature; the laws below are for the other values. */
  ghost predicate FloatFree(ms: seq<Metric>, universe: iset<Fields>) {
    forall j, f | 0 <= j < |ms| && f in universe :: FloatFreeAt(ms[j], f)
  }

  predicate FloatFreeAt(m: Metric, f: Fields) {
    var v := m.Contribution(f);
    v.Some? ==> !v.value.Float?
  }

  /** Two records feed a metric values on which both representations agree, in any order. */
  predicate CleanPair(m: Metric, f: Fields, g: Fields) {
    var v, w := m.Contribution(f), m.Contribution(g);
    v.Some? && w.Some? ==>
      var x, y := StoredOf(v.value), StoredOf(w.value);
      match m.op
      case CountOp => true
      case SumOp => true
      case AvgOp => v.value.Int?
      case MinOp => (x == SNull <==> y == SNull) && (x != SNull ==> x.SText? == y.SText?)
      case MaxOp => x != SNull && y != SNull ==> x.SText? == y.SText?
  }

  /**
   The exact schema condition: averages see only integers, a minimum sees
   either only values or only nulls, and an extreme sees one type of value.
   */
  ghost predicate Clean(ms: seq<Metric>, universe: iset<Fields>) {
    forall j, f, g | 0 <= j < |ms| && f in universe && g in universe :: CleanPair(ms[j], f, g)
  }

  // ─── Live records come from adds ───────────────────────────────────────────

  lemma {:induction false} UntouchedLive(m: Metric, h: History)
    requires !Touched(m, h)
    ensures forall x | x in Live(h) :: m.Contribution(x) == None
  {
    if h != [] {
      var front, e := h[..|h| - 1], h[|h| - 1];
      assert forall k | 0 <= k < |front| :: front[k] == h[k];
      UntouchedLive(m, front);
      RemovedSubset(Live(front), e.fields);
    }
  }

  lemma TouchedStep(m: Metric, h: History)
    requires h != []
    ensures var e := h[|h| - 1];
            Touched(m, h) <==> Touched(m, h[..|h| - 1]) || (e.isAdd && m.Contribution(e.fields).Some?)
  {
    var front := h[..|h| - 1];
    assert forall k | 0 <= k < |front| :: front[k] == h[k];
    if Touched(m, h) {
      var k :| 0 <= k < |h| && h[k].isAdd && m.Contribution(h[k].fields).Some?;
      assert k == |h| - 1 || front[k] == h[k];
    }
  }

  /** What one event does to a metric's live totals. */
  lemma LiveStep(m: Metric, h: History)
    requires h != [] && Valid(h)
    ensures var front, e := h[..|h| - 1], h[|h| - 1];
            && TotalFed(m, Live(h)) == TotalFed(m, Live(front)) + Sign(e) * Fed(m, e.fields)
            && TotalAmount(m, Live(h)) == TotalAmount(m, Live(front)) + Sign(e) * Amount(m, e.fields)
            && TotalFed(m, Live(h)) >= 0
            && |Live(h)| == |Live(front)| + Sign(e)
            && (!Touched(m, front) ==> TotalFed(m, Live(front)) == 0 && TotalAmount(m, Live(front)) == 0)
            && (!e.isAdd && m.Contribution(e.fields).Some? ==> Touched(m, front))
  {
    var front, e := h[..|h| - 1], h[|h| - 1];
    var live := Live(front);
    if e.isAdd {
      SumByAppend(f => Fed(m, f), live, e.fields);
      SumByAppend(f => Amount(m, f), live, e.fields);
    } else {
      SumByRemove(f => Fed(m, f), live, e.fields);
      SumByRemove(f => Amount(m, f), live, e.fields);
      RemovedSubset(live, e.fields);
    }
    TotalFedBound(m, Live(h), e.fields);
    if !Touched(m, front) {
      UntouchedLive(m, front);
      NothingFed(m, live);
    }
  }

  // ─── Each representation equals the reference, cell by cell ────────────────

  predicate CleanAlone(m: Metric, h: History) {
    forall j, k | 0 <= j < |h| && 0 <= k < |h| :: FloatFreeAt(m, h[j].fields) && CleanPair(m, h[j].fields, h[k].fields)
  }

  /** A minimum fed only values, or only nulls. */
  lemma {:induction false} ExtremesUniform(m: Metric, h: History, f: Fields)
    requires m.op == MinOp && CleanAlone(m, h + [Event(f, true)]) && m.Contribution(f).Some?
    ensures var lo := Extremes(m, h).0;
            var x := StoredOf(m.Contribution(f).value);
            (x == SNull ==> lo == SNull) && (x != SNull && Touched(m, h) ==> lo != SNull)
  {
    if h != [] {
      var front, e := h[..|h| - 1], h[|h| - 1];
      var all := h + [Event(f, true)];
      var shorter := front + [Event(f, true)];
      assert all[|h|] == Event(f, true) && all[|h| - 1] == e;
      assert forall k | 0 <= k < |shorter| :: shorter[k] == if k < |front| then all[k] else all[|h|];
      assert CleanPair(m, all[|h|].fields, all[|h| - 1].fields);
      ExtremesUniform(m, front, f);
      TouchedStep(m, h);
    }
  }

  lemma CleanAlonePrefix(m: Metric, h: History)
    requires h != [] && CleanAlone(m, h)
    ensures CleanAlone(m, h[..|h| - 1])
  {
    var front := h[..|h| - 1];
    forall j, k | 0 <= j < |front| && 0 <= k < |front|
      ensures FloatFreeAt(m, front[j].fields) && CleanPair(m, front[j].fields, front[k].fields)
    {
      assert FloatFreeAt(m, h[j].fields) && CleanPair(m, h[j].fields, h[k].fields);
    }
  }

  /** What a write must do to a metric's in-RAM cell. */
  ghost predicate InRamMoves(fa: FloatArith, m: Metric, h: History)
    requires h != []
  {
    var front, e := h[..|h| - 1], h[|h| - 1];
    ClampCell(ReferenceCell(m, h))
    == if e.isAdd then AddCell(fa, m, e.fields, ClampCell(ReferenceCell(m, front)))
       else SubtractCell(fa, m, e.fields, ClampCell(ReferenceCell(m, front)))
  }

  function Totals(op: AggOp, fed: int, amount: int): DeltaValue
    requires op in {CountOp, SumOp, AvgOp}
  {
    match op
    case CountOp => CountD(fed)
    case SumOp => SumD(IntSum(amount))
    case AvgOp => AvgD(IntSum(amount), fed)
  }

  lemma TotalsMove(fa: FloatArith, m: Metric, e: Event, touched: bool, fed: int, amount: int)
    requires m.op in {CountOp, SumOp, AvgOp} && FloatFreeAt(m, e.fields) && CleanPair(m, e.fields, e.fields)
    requires fed >= 0 && fed + Sign(e) * Fed(m, e.fields) >= 0
    requires !touched ==> fed == 0 && amount == 0
    requires !e.isAdd && m.Contribution(e.fields).Some? ==> touched
    ensures var c := if touched then Some(ClampValue(Totals(m.op, fed, amount))) else None;
            var next := Totals(m.op, fed + Sign(e) * Fed(m, e.fields), amount + Sign(e) * Amount(m, e.fields));
            (if e.isAdd then AddCell(fa, m, e.fields, c) else SubtractCell(fa, m, e.fields, c))
            == if touched || (e.isAdd && m.Contribution(e.fields).Some?) then Some(ClampValue(next)) else None
  {
  }

  lemma InRamStepTotals(fa: FloatArith, m: Metric, h: History)
    requires h != [] && Valid(h) && CleanAlone(m, h) && m.op in {CountOp, SumOp, AvgOp}
    ensures InRamMoves(fa, m, h)
  {
    var front, e := h[..|h| - 1], h[|h| - 1];
    LiveStep(m, h);
    TouchedStep(m, h);
    assert FloatFreeAt(m, h[|h| - 1].fields) && CleanPair(m, h[|h| - 1].fields, h[|h| - 1].fields);
    TotalFedBound(m, Live(front), e.fields);
    TotalsMove(fa, m, e, Touched(m, front), TotalFed(m, Live(front)), TotalAmount(m, Live(front)));
  }

  function Extreme(op: AggOp, ends: (Stored, Stored)): DeltaValue
    requires op in {MinOp, MaxOp}
  {
    if op == MinOp then MinD(ends.0) else MaxD(ends.1)
  }

  lemma ExtremeMove(fa: FloatArith, m: Metric, e: Event, touched: bool, lo: Stored, hi: Stored)
    requires m.op in {MinOp, MaxOp}
    requires !touched ==> lo == SNull && hi == SNull
    requires !e.isAdd && m.Contribution(e.fields).Some? ==> touched
    requires m.op == MinOp && m.Contribution(e.fields).Some? && StoredOf(m.Contribution(e.fields).value) == SNull
             ==> !e.isAdd || lo == SNull
    ensures var c := if touched then Some(ClampValue(Extreme(m.op, (lo, hi)))) else None;
            (if e.isAdd then AddCell(fa, m, e.fields, c) else SubtractCell(fa, m, e.fields, c))
            == if e.isAdd && m.Contribution(e.fields).Some? then
                 var x := StoredOf(m.Contribution(e.fields).value);
                 Some(ClampValue(Extreme(m.op, (Lower(lo, x), Higher(hi, x)))))
               else c
  {
  }

  lemma InRamStepExtreme(fa: FloatArith, m: Metric, h: History)
    requires h != [] && Valid(h) && CleanAlone(m, h) && m.op in {MinOp, MaxOp}
    ensures InRamMoves(fa, m, h)
  {
    var front, e := h[..|h| - 1], h[|h| - 1];
    assert !e.isAdd && m.Contribution(e.fields).Some? ==> Touched(m, front) by { LiveStep(m, h); }
    TouchedStep(m, h);
    if !Touched(m, front) { UntouchedExtremes(m, front); }
    var (lo, hi) := Extremes(m, front);
    if m.op == MinOp && e.isAdd && m.Contribution(e.fields).Some? {
      assert front + [Event(e.fields, true)] == h;
      ExtremesUniform(m, front, e.fields);
    }
    ExtremeMove(fa, m, e, Touched(m, front), lo, hi);
  }

  /** One write moves the in-RAM cell from reference to reference. */
  lemma InRamStep(fa: FloatArith, m: Metric, h: History)
    requires h != [] && Valid(h) && CleanAlone(m, h)
    ensures InRamMoves(fa, m, h)
  {
    match m.op
    case MinOp => InRamStepExtreme(fa, m, h);
    case MaxOp => InRamStepExtreme(fa, m, h);
    case _ => InRamStepTotals(fa, m, h);
  }

  lemma {:induction false} UntouchedExtremes(m: Metric, h: History)
    requires !Touched(m, h)
    ensures Extremes(m, h) == (SNull, SNull)
  {
    if h != [] {
      TouchedStep(m, h);
      UntouchedExtremes(m, h[..|h| - 1]);
    }
  }

  /** One write moves the folded delta's cell from reference to reference. */
  lemma DeltaStep(fa: FloatArith, m: Metric, h: History)
    requires h != [] && Valid(h) && CleanAlone(m, h)
    ensures var front, e := h[..|h| - 1], h[|h| - 1];
            ReferenceCell(m, h) == MergeCell(fa, ReferenceCell(m, front), RecordCell(fa, m, e.fields, Sign(e)))
  {
    var front, e := h[..|h| - 1], h[|h| - 1];
    LiveStep(m, h);
    TouchedStep(m, h);
    assert FloatFreeAt(m, h[|h| - 1].fields) && CleanPair(m, h[|h| - 1].fields, h[|h| - 1].fields);
    if !Touched(m, front) { UntouchedExtremes(m, front); }
  }

  lemma {:induction false} InRamCell(fa: FloatArith, h: History, ms: seq<Metric>, j: nat)
    requires DistinctLabels(ms) && j < |ms| && Valid(h) && CleanAlone(ms[j], h)
    ensures InRam(fa, h, ms).At(ms[j].name) == ClampCell(ReferenceCell(ms[j], h))
  {
    if h != [] {
      var front, e := h[..|h| - 1], h[|h| - 1];
      CleanAlonePrefix(ms[j], h);
      InRamCell(fa, front, ms, j);
      InRamStep(fa, ms[j], h);
      MetricForMember(ms, j);
      AddedAt(fa, InRam(fa, front, ms), e.fields, ms, ms[j].name);
      SubtractedAt(fa, InRam(fa, front, ms), e.fields, ms, ms[j].name);
    }
  }

  lemma {:induction false} FoldedCell(fa: FloatArith, h: History, ms: seq<Metric>, j: nat)
    requires DistinctLabels(ms) && j < |ms| && Valid(h) && CleanAlone(ms[j], h)
    ensures Fold(fa, DeltasOf(fa, h, ms)).At(ms[j].name) == ReferenceCell(ms[j], h)
  {
    if h != [] {
      var front, e := h[..|h| - 1], h[|h| - 1];
      CleanAlonePrefix(ms[j], h);
      FoldedCell(fa, front, ms, j);
      DeltaStep(fa, ms[j], h);
      MetricForMember(ms, j);
      var ds := DeltasOf(fa, h, ms);
      assert ds[..|h| - 1] == DeltasOf(fa, front, ms);
      MergeDeltaAt(fa, Fold(fa, ds[..|h| - 1]), ds[|h| - 1], ms[j].name);
      ForRecordAt(fa, e.fields, ms, Sign(e), ms[j].name);
    }
  }
}
