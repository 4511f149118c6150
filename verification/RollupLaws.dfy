/**
 The laws of a ghost's two representations: in-RAM maintenance, delta folding
 in any order and grouping, and rebuilding from the live records all agree,
 exactly when the group's records are clean for the metrics.
 */
module RollupLaws {
  import opened Bytes
  import opened Values
  import opened Filters
  import opened Aggregates
  import opened Deltas
  import opened RollupHistory

  ghost predicate CleanHistory(ms: seq<Metric>, h: History) {
    forall j | 0 <= j < |ms| :: CleanAlone(ms[j], h)
  }

  lemma CleanHistoryPrefix(ms: seq<Metric>, h: History)
    requires h != [] && CleanHistory(ms, h)
    ensures CleanHistory(ms, h[..|h| - 1])
  {
    forall j | 0 <= j < |ms| ensures CleanAlone(ms[j], h[..|h| - 1]) {
      CleanAlonePrefix(ms[j], h);
    }
  }

  lemma CleanUniverse(ms: seq<Metric>, h: History, universe: iset<Fields>)
    requires Over(h, universe) && FloatFree(ms, universe) && Clean(ms, universe)
    ensures CleanHistory(ms, h)
  {
    forall i, j, k | 0 <= i < |ms| && 0 <= j < |h| && 0 <= k < |h|
      ensures FloatFreeAt(ms[i], h[j].fields) && CleanPair(ms[i], h[j].fields, h[k].fields)
    {
    }
  }

  // ─── Totals, dirty flag and absent labels ──────────────────────────────────

  lemma DirtyStep(ms: seq<Metric>, h: History)
    requires h != []
    ensures var e := h[|h| - 1];
            ReferenceDirty(ms, h) <==>
            ReferenceDirty(ms, h[..|h| - 1]) || exists j | 0 <= j < |ms| :: !e.isAdd && Soils(ms[j], e.fields, -1)
  {
    var front, e := h[..|h| - 1], h[|h| - 1];
    assert forall k | 0 <= k < |front| :: front[k] == h[k];
    if ReferenceDirty(ms, h) {
      var k, j :| 0 <= k < |h| && 0 <= j < |ms| && !h[k].isAdd && Soils(ms[j], h[k].fields, -1);
      if k < |front| { assert !front[k].isAdd && Soils(ms[j], front[k].fields, -1); }
    }
    if ReferenceDirty(ms, front) {
      var k, j :| 0 <= k < |front| && 0 <= j < |ms| && !front[k].isAdd && Soils(ms[j], front[k].fields, -1);
      assert !h[k].isAdd && Soils(ms[j], h[k].fields, -1);
    }
    if j :| 0 <= j < |ms| && !e.isAdd && Soils(ms[j], e.fields, -1) {
      assert !h[|h| - 1].isAdd && Soils(ms[j], h[|h| - 1].fields, -1);
    }
  }

  /** In the in-RAM state a removal goes stale exactly where the delta soils. */
  lemma StalesIsSoils(fa: FloatArith, h: History, ms: seq<Metric>, j: nat)
    requires DistinctLabels(ms) && j < |ms| && h != [] && Valid(h) && CleanAlone(ms[j], h)
    requires !h[|h| - 1].isAdd
    ensures var f := h[|h| - 1].fields;
            Stales(ms[j], f, InRam(fa, h[..|h| - 1], ms).At(ms[j].name)) == Soils(ms[j], f, -1)
  {
    var m, front, f := ms[j], h[..|h| - 1], h[|h| - 1].fields;
    CleanAlonePrefix(m, h);
    InRamCell(fa, front, ms, j);
    assert m.Contribution(f).Some? ==> Touched(m, front) by { LiveStep(m, h); }
    CellShape(m, front);
  }

  lemma CellShape(m: Metric, h: History)
    ensures var c := ClampCell(ReferenceCell(m, h));
            (c.Some? <==> Touched(m, h)) && (c.Some? ==> (c.value.MinV? || c.value.MaxV? <==> m.op in {MinOp, MaxOp}))
  {
  }

  lemma {:induction false} InRamTotals(fa: FloatArith, h: History, ms: seq<Metric>)
    requires DistinctLabels(ms) && Valid(h) && CleanHistory(ms, h)
    ensures InRam(fa, h, ms).count == |Live(h)|
    ensures InRam(fa, h, ms).dirty == ReferenceDirty(ms, h)
    ensures InRam(fa, h, ms).values.Keys <= Labels(ms)
  {
    if h != [] {
      var front, e := h[..|h| - 1], h[|h| - 1];
      CleanHistoryPrefix(ms, h);
      InRamTotals(fa, front, ms);
      DirtyStep(ms, h);
      RemovedSubset(Live(front), e.fields);
      if !e.isAdd {
        assert Live(front) != [];
        forall j | 0 <= j < |ms|
          ensures Stales(ms[j], e.fields, InRam(fa, front, ms).At(ms[j].name)) == Soils(ms[j], e.fields, -1)
        {
          StalesIsSoils(fa, h, ms, j);
        }
      }
    }
  }

  lemma {:induction false} FoldedTotals(fa: FloatArith, h: History, ms: seq<Metric>)
    requires Valid(h)
    ensures Fold(fa, DeltasOf(fa, h, ms)).count == |Live(h)|
    ensures Fold(fa, DeltasOf(fa, h, ms)).dirty == ReferenceDirty(ms, h)
    ensures Fold(fa, DeltasOf(fa, h, ms)).values.Keys <= Labels(ms)
  {
    if h != [] {
      var front, e := h[..|h| - 1], h[|h| - 1];
      var ds := DeltasOf(fa, h, ms);
      assert ds[..|h| - 1] == DeltasOf(fa, front, ms);
      FoldedTotals(fa, front, ms);
      DirtyStep(ms, h);
      RemovedSubset(Live(front), e.fields);
    }
  }

  /** Folding the deltas in write order gives the in-RAM state. */
  lemma FoldEqualsInRam(fa: FloatArith, h: History, ms: seq<Metric>)
    requires DistinctLabels(ms) && Valid(h) && CleanHistory(ms, h)
    ensures IntoState(Fold(fa, DeltasOf(fa, h, ms))) == InRam(fa, h, ms)
  {
    var folded := Fold(fa, DeltasOf(fa, h, ms));
    InRamTotals(fa, h, ms);
    FoldedTotals(fa, h, ms);
    forall l ensures IntoState(folded).At(l) == InRam(fa, h, ms).At(l) {
      IntoStateAt(folded, l);
      if l in Labels(ms) {
        var j :| 0 <= j < |ms| && ms[j].name == l;
        InRamCell(fa, h, ms, j);
        FoldedCell(fa, h, ms, j);
      }
    }
    SameCells(IntoState(folded), InRam(fa, h, ms));
  }

  // ─── The schema of a clean universe ────────────────────────────────────────

  ghost predicate FeedsText(m: Metric, universe: iset<Fields>) {
    exists f | f in universe :: m.Contribution(f).Some? && m.Contribution(f).value.Text?
  }

  ghost function KindOf(m: Metric, universe: iset<Fields>): Kind {
    match m.op
    case CountOp => KCount
    case SumOp => KSum
    case AvgOp => KAvg
    case MinOp => KMin(FeedsText(m, universe))
    case MaxOp => KMax(FeedsText(m, universe))
  }

  ghost function SchemaOf(ms: seq<Metric>, universe: iset<Fields>): Schema {
    map l | l in Labels(ms) :: KindOf(MetricFor(ms, l).value, universe)
  }

  lemma RecordFits(fa: FloatArith, f: Fields, ms: seq<Metric>, sign: int, universe: iset<Fields>)
    requires DistinctLabels(ms) && f in universe && FloatFree(ms, universe) && Clean(ms, universe)
    ensures Fits(ForRecord(fa, f, ms, sign), SchemaOf(ms, universe))
  {
    var d := ForRecord(fa, f, ms, sign);
    forall l | l in d.values ensures ValueFits(d.values[l], SchemaOf(ms, universe)[l]) {
      var j :| 0 <= j < |ms| && ms[j].name == l;
      MetricForMember(ms, j);
      CellFits(fa, f, ms, j, sign, universe);
    }
  }

  lemma CellFits(fa: FloatArith, f: Fields, ms: seq<Metric>, j: nat, sign: int, universe: iset<Fields>)
    requires j < |ms| && f in universe && FloatFree(ms, universe) && Clean(ms, universe)
    requires RecordCell(fa, ms[j], f, sign).Some?
    ensures ValueFits(RecordCell(fa, ms[j], f, sign).value, KindOf(ms[j], universe))
  {
    var m := ms[j];
    assert FloatFreeAt(m, f);
    if m.op in {MinOp, MaxOp} && FeedsText(m, universe) {
      var g :| g in universe && m.Contribution(g).Some? && m.Contribution(g).value.Text?;
      assert CleanPair(m, f, g);
    }
  }

  // ─── Main law ──────────────────────────────────────────────────────────────

  /**
   For every valid history over clean records, folding the per-record deltas in
   any order and any grouping gives the state kept by in-order add and subtract:
   count, cells, sums, averages, extremes and dirty flag.
   */
  lemma AnyFoldEqualsInRam(fa: FloatArith, h: History, ms: seq<Metric>, universe: iset<Fields>, g: Grouping)
    requires DistinctLabels(ms) && Valid(h) && Over(h, universe)
    requires FloatFree(ms, universe) && Clean(ms, universe)
    requires multiset(Leaves(g)) == multiset(DeltasOf(fa, h, ms))
    ensures IntoState(FoldGrouping(fa, g)) == InRam(fa, h, ms)
  {
    var schema := SchemaOf(ms, universe);
    var ds := DeltasOf(fa, h, ms);
    forall k | 0 <= k < |ds| ensures Fits(ds[k], schema) {
      RecordFits(fa, h[k].fields, ms, Sign(h[k]), universe);
    }
    FoldAnyOrder(fa, ds, Leaves(g), schema);
    FoldAnyGrouping(fa, g, schema);
    CleanUniverse(ms, h, universe);
    FoldEqualsInRam(fa, h, ms);
  }

  /** The law as a property of a metric list and the records it may meet. */
  ghost predicate AlwaysAgree(fa: FloatArith, ms: seq<Metric>, universe: iset<Fields>) {
    forall h: History, g: Grouping ::
      Valid(h) && Over(h, universe) && multiset(Leaves(g)) == multiset(DeltasOf(fa, h, ms))
      ==> IntoState(FoldGrouping(fa, g)) == InRam(fa, h, ms)
  }

  /** Exactly when the two representations agree on every history. */
  lemma AgreeIffClean(fa: FloatArith, ms: seq<Metric>, universe: iset<Fields>)
    requires DistinctLabels(ms) && FloatFree(ms, universe)
    ensures AlwaysAgree(fa, ms, universe) <==> Clean(ms, universe)
  {
    if Clean(ms, universe) {
      forall h: History, g: Grouping
        | Valid(h) && Over(h, universe) && multiset(Leaves(g)) == multiset(DeltasOf(fa, h, ms))
        ensures IntoState(FoldGrouping(fa, g)) == InRam(fa, h, ms)
      {
        AnyFoldEqualsInRam(fa, h, ms, universe, g);
      }
    } else {
      var j, f, g :| 0 <= j < |ms| && f in universe && g in universe && !CleanPair(ms[j], f, g);
      assert FloatFreeAt(ms[j], f) && FloatFreeAt(ms[j], g);
      var h, t := Disagreement(fa, ms, j, f, g);
      assert Over(h, universe);
    }
  }

  /** The in-RAM cell after one and after two adds. */
  lemma AddsInRam(fa: FloatArith, ms: seq<Metric>, j: nat, a: Fields, b: Fields)
    requires DistinctLabels(ms) && j < |ms|
    ensures InRam(fa, [Event(a, true)], ms).At(ms[j].name) == AddCell(fa, ms[j], a, None)
    ensures InRam(fa, [Event(a, true), Event(b, true)], ms).At(ms[j].name)
            == AddCell(fa, ms[j], b, AddCell(fa, ms[j], a, None))
  {
    var one, two := [Event(a, true)], [Event(a, true), Event(b, true)];
    MetricForMember(ms, j);
    assert one[..0] == [] && two[..1] == one;
    AddedAt(fa, EMPTY_STATE, a, ms, ms[j].name);
    AddedAt(fa, InRam(fa, one, ms), b, ms, ms[j].name);
  }

  /** The folded cell of two adds, in the given order. */
  lemma AddsFolded(fa: FloatArith, ms: seq<Metric>, j: nat, a: Fields, b: Fields)
    requires DistinctLabels(ms) && j < |ms|
    ensures ForRecord(fa, a, ms, 1).At(ms[j].name) == RecordCell(fa, ms[j], a, 1)
    ensures FoldGrouping(fa, Pair(One(ForRecord(fa, a, ms, 1)), One(ForRecord(fa, b, ms, 1)))).At(ms[j].name)
            == MergeCell(fa, RecordCell(fa, ms[j], a, 1), RecordCell(fa, ms[j], b, 1))
  {
    MetricForMember(ms, j);
    ForRecordAt(fa, a, ms, 1, ms[j].name);
    ForRecordAt(fa, b, ms, 1, ms[j].name);
    MergeDeltaAt(fa, ForRecord(fa, a, ms, 1), ForRecord(fa, b, ms, 1), ms[j].name);
  }

  lemma ValidAdds(a: Fields, b: Fields)
    ensures Valid([Event(a, true)]) && Valid([Event(a, true), Event(b, true)])
  {
    var one, two := [Event(a, true)], [Event(a, true), Event(b, true)];
    assert one[..0] == [] && two[..1] == one;
  }

  /** A non-integer average: the delta counts what the in-RAM state skips. */
  lemma AverageDiffers(fa: FloatArith, m: Metric, f: Fields)
    requires m.op == AvgOp && m.Contribution(f).Some? && !Numeric(m.Contribution(f).value)
    ensures ClampCell(RecordCell(fa, m, f, 1)) != AddCell(fa, m, f, None)
  {
  }

  /** A null after a value: the in-RAM minimum is lost, the delta keeps it. */
  lemma NullMinimumDiffers(fa: FloatArith, m: Metric, a: Fields, b: Fields)
    requires m.op == MinOp && m.Contribution(a).Some? && m.Contribution(b).Some?
    requires StoredOf(m.Contribution(a).value) != SNull == StoredOf(m.Contribution(b).value)
    ensures ClampCell(MergeCell(fa, RecordCell(fa, m, a, 1), RecordCell(fa, m, b, 1)))
            != AddCell(fa, m, b, AddCell(fa, m, a, None))
  {
    assert AddCell(fa, m, a, None) == Some(MinV(StoredOf(m.Contribution(a).value)));
  }

  /** Incomparable values: whichever is folded first wins. */
  lemma KindsDiffer(fa: FloatArith, m: Metric, a: Fields, b: Fields)
    requires m.op in {MinOp, MaxOp} && m.Contribution(a).Some? && m.Contribution(b).Some?
    requires var v, w := m.Contribution(a).value, m.Contribution(b).value; (v.Int? && w.Text?) || (v.Text? && w.Int?)
    ensures ClampCell(MergeCell(fa, RecordCell(fa, m, b, 1), RecordCell(fa, m, a, 1)))
            != AddCell(fa, m, b, AddCell(fa, m, a, None))
  {
    var x := StoredOf(m.Contribution(a).value);
    assert AddCell(fa, m, a, None) == Some(if m.op == MinOp then MinV(x) else MaxV(x));
  }

  /** A history and a schedule of its deltas that read differently. */
  ghost predicate Differs(fa: FloatArith, ms: seq<Metric>, h: History, t: Grouping) {
    && Valid(h)
    && multiset(Leaves(t)) == multiset(DeltasOf(fa, h, ms))
    && IntoState(FoldGrouping(fa, t)) != InRam(fa, h, ms)
  }

  lemma OneAddDiffers(fa: FloatArith, ms: seq<Metric>, j: nat, f: Fields)
    requires DistinctLabels(ms) && j < |ms|
    requires ClampCell(RecordCell(fa, ms[j], f, 1)) != AddCell(fa, ms[j], f, None)
    ensures Differs(fa, ms, [Event(f, true)], One(ForRecord(fa, f, ms, 1)))
  {
    var h, t := [Event(f, true)], One(ForRecord(fa, f, ms, 1));
    ValidAdds(f, f);
    assert DeltasOf(fa, h, ms) == [t.d];
    AddsInRam(fa, ms, j, f, f);
    AddsFolded(fa, ms, j, f, f);
    IntoStateAt(FoldGrouping(fa, t), ms[j].name);
  }

  lemma TwoLeaves(fa: FloatArith, ms: seq<Metric>, a: Fields, b: Fields, x: Fields, y: Fields)
    requires (x == a && y == b) || (x == b && y == a)
    ensures multiset(Leaves(Pair(One(ForRecord(fa, x, ms, 1)), One(ForRecord(fa, y, ms, 1)))))
            == multiset(DeltasOf(fa, [Event(a, true), Event(b, true)], ms))
  {
    var da, db := ForRecord(fa, a, ms, 1), ForRecord(fa, b, ms, 1);
    assert DeltasOf(fa, [Event(a, true), Event(b, true)], ms) == [da, db];
    assert [da] + [db] == [da, db] && [db] + [da] == [db, da];
  }

  lemma TwoAddsDiffer(fa: FloatArith, ms: seq<Metric>, j: nat, a: Fields, b: Fields, x: Fields, y: Fields)
    requires DistinctLabels(ms) && j < |ms| && ((x == a && y == b) || (x == b && y == a))
    requires ClampCell(MergeCell(fa, RecordCell(fa, ms[j], x, 1), RecordCell(fa, ms[j], y, 1)))
             != AddCell(fa, ms[j], b, AddCell(fa, ms[j], a, None))
    ensures Differs(fa, ms, [Event(a, true), Event(b, true)],
                    Pair(One(ForRecord(fa, x, ms, 1)), One(ForRecord(fa, y, ms, 1))))
  {
    var h := [Event(a, true), Event(b, true)];
    var t := Pair(One(ForRecord(fa, x, ms, 1)), One(ForRecord(fa, y, ms, 1)));
    ValidAdds(a, b);
    TwoLeaves(fa, ms, a, b, x, y);
    AddsInRam(fa, ms, j, a, b);
    AddsFolded(fa, ms, j, x, y);
    IntoStateAt(FoldGrouping(fa, t), ms[j].name);
  }

  /** Every way of being unclean has a history that shows it. */
  lemma Disagreement(fa: FloatArith, ms: seq<Metric>, j: nat, f: Fields, g: Fields) returns (h: History, t: Grouping)
    requires DistinctLabels(ms) && j < |ms| && !CleanPair(ms[j], f, g)
    requires FloatFreeAt(ms[j], f) && FloatFreeAt(ms[j], g)
    ensures Differs(fa, ms, h, t)
    ensures forall k | 0 <= k < |h| :: h[k].fields in {f, g}
  {
    var m := ms[j];
    if m.op == AvgOp {
      h, t := [Event(f, true)], One(ForRecord(fa, f, ms, 1));
      AverageDiffers(fa, m, f);
      OneAddDiffers(fa, ms, j, f);
    } else {
      var x, y := StoredOf(m.Contribution(f).value), StoredOf(m.Contribution(g).value);
      if x == SNull || y == SNull {
        var (a, b) := if x == SNull then (g, f) else (f, g);
        h, t := [Event(a, true), Event(b, true)], Pair(One(ForRecord(fa, a, ms, 1)), One(ForRecord(fa, b, ms, 1)));
        NullMinimumDiffers(fa, m, a, b);
        TwoAddsDiffer(fa, ms, j, a, b, a, b);
      } else {
        h, t := [Event(f, true), Event(g, true)], Pair(One(ForRecord(fa, g, ms, 1)), One(ForRecord(fa, f, ms, 1)));
        KindsDiffer(fa, m, f, g);
        TwoAddsDiffer(fa, ms, j, f, g, g, f);
      }
    }
  }

  // ─── What the extremes are ─────────────────────────────────────────────────

  /** The value an event offers to a metric's extremes. */
  function Offered(m: Metric, e: Event): Stored {
    if e.isAdd && m.Contribution(e.fields).Some? then StoredOf(m.Contribution(e.fields).value) else SNull
  }

  predicate Between(x: Stored, lo: Stored, hi: Stored) {
    x != SNull ==> lo != SNull && hi != SNull && !StoredLt(x, lo) && !StoredLt(hi, x)
  }

  /** The reference extremes are attained, and no added value lies beyond them. */
  lemma {:induction false} ExtremesAreExtreme(m: Metric, h: History, text: bool)
    requires forall k | 0 <= k < |h| :: StoredFits(Offered(m, h[k]), text)
    ensures var (lo, hi) := Extremes(m, h);
            && StoredFits(lo, text) && StoredFits(hi, text)
            && (lo != SNull ==> exists k | 0 <= k < |h| :: Offered(m, h[k]) == lo)
            && (hi != SNull ==> exists k | 0 <= k < |h| :: Offered(m, h[k]) == hi)
            && forall k | 0 <= k < |h| :: Between(Offered(m, h[k]), lo, hi)
  {
    if h != [] {
      var front, e := h[..|h| - 1], h[|h| - 1];
      assert forall k | 0 <= k < |front| :: front[k] == h[k];
      ExtremesAreExtreme(m, front, text);
      var (lo, hi) := Extremes(m, front);
      var (lo', hi') := Extremes(m, h);
      var y := Offered(m, h[|h| - 1]);
      assert lo' == Lower(lo, y) && hi' == Higher(hi, y);
      forall k | 0 <= k < |h| ensures Between(Offered(m, h[k]), lo', hi') {
        assert StoredFits(Offered(m, h[k]), text);
        if k < |front| { assert Between(Offered(m, front[k]), lo, hi); }
        BeyondBoth(Offered(m, h[k]), lo, hi, y, text);
      }
      if lo' == lo && lo != SNull {
        var k :| 0 <= k < |front| && Offered(m, front[k]) == lo;
        assert Offered(m, h[k]) == lo';
      }
      if hi' == hi && hi != SNull {
        var k :| 0 <= k < |front| && Offered(m, front[k]) == hi;
        assert Offered(m, h[k]) == hi';
      }
    }
  }

  lemma BeyondBoth(x: Stored, lo: Stored, hi: Stored, y: Stored, text: bool)
    requires StoredFits(x, text) && StoredFits(lo, text) && StoredFits(hi, text) && StoredFits(y, text)
    ensures x == y || Between(x, lo, hi) ==> Between(x, Lower(lo, y), Higher(hi, y))
  {
    StoredOrder(x, lo, y, text);
    StoredOrder(x, x, x, text);
    StoredOrder(lo, y, lo, text);
    StoredOrder(y, hi, x, text);
    StoredOrder(hi, y, hi, text);
  }

  // ─── Rebuilding from the live records ──────────────────────────────────────

  function Adds(xs: seq<Fields>): History {
    seq(|xs|, k requires 0 <= k < |xs| => Event(xs[k], true))
  }

  lemma {:induction false} AddsAreLive(xs: seq<Fields>)
    ensures Valid(Adds(xs)) && Live(Adds(xs)) == xs
  {
    if xs != [] {
      var front := xs[..|xs| - 1];
      assert Adds(xs)[..|xs| - 1] == Adds(front);
      AddsAreLive(front);
      assert xs == front + [xs[|xs| - 1]];
    }
  }

  lemma {:induction false} LiveIsAdded(h: History)
    ensures forall x | x in Live(h) :: exists k | 0 <= k < |h| :: h[k].fields == x
  {
    if h != [] {
      var front, e := h[..|h| - 1], h[|h| - 1];
      LiveIsAdded(front);
      RemovedSubset(Live(front), e.fields);
      forall x | x in Live(h) ensures exists k | 0 <= k < |h| :: h[k].fields == x {
        if x in Live(front) {
          var k :| 0 <= k < |front| && front[k].fields == x;
          assert h[k].fields == x;
        } else {
          assert h[|h| - 1].fields == x;
        }
      }
    }
  }

  function EndsFrom(m: Metric, ends: (Stored, Stored), xs: seq<Fields>): (Stored, Stored)
    decreases |xs|
  {
    if xs == [] then ends else EndsFrom(m, Absorb(m, ends, xs[0]), xs[1..])
  }

  lemma {:induction false} EndsAppend(m: Metric, ends: (Stored, Stored), xs: seq<Fields>, x: Fields)
    ensures EndsFrom(m, ends, xs + [x]) == Absorb(m, EndsFrom(m, ends, xs), x)
    decreases |xs|
  {
    if xs != [] {
      assert (xs + [x])[1..] == xs[1..] + [x];
      EndsAppend(m, Absorb(m, ends, xs[0]), xs[1..], x);
    }
  }

  /** Removing a record a metric ignores leaves the metric's extremes alone. */
  lemma {:induction false} EndsSkip(m: Metric, ends: (Stored, Stored), xs: seq<Fields>, x: Fields)
    requires m.Contribution(x) == None
    ensures EndsFrom(m, ends, RemoveFirst(xs, x)) == EndsFrom(m, ends, xs)
    decreases |xs|
  {
    if xs != [] && xs[0] != x {
      EndsSkip(m, Absorb(m, ends, xs[0]), xs[1..], x);
      assert ([xs[0]] + RemoveFirst(xs[1..], x))[1..] == RemoveFirst(xs[1..], x);
    }
  }

  lemma {:induction false} ExtremesOfAdds(m: Metric, xs: seq<Fields>)
    ensures Extremes(m, Adds(xs)) == EndsFrom(m, (SNull, SNull), xs)
  {
    if xs != [] {
      var front, x := xs[..|xs| - 1], xs[|xs| - 1];
      assert Adds(xs)[..|xs| - 1] == Adds(front);
      assert xs == front + [x];
      ExtremesOfAdds(m, front);
      EndsAppend(m, (SNull, SNull), front, x);
    }
  }

  /** While nothing soiled the extremes, they are the extremes of the live records. */
  lemma {:induction false} ExtremesOfLive(m: Metric, h: History)
    requires m.op in {MinOp, MaxOp}
    requires forall k | 0 <= k < |h| :: !h[k].isAdd ==> !Soils(m, h[k].fields, -1)
    ensures Extremes(m, h) == EndsFrom(m, (SNull, SNull), Live(h))
  {
    if h != [] {
      var front, e := h[..|h| - 1], h[|h| - 1];
      assert forall k | 0 <= k < |front| :: front[k] == h[k];
      ExtremesOfLive(m, front);
      if e.isAdd {
        EndsAppend(m, (SNull, SNull), Live(front), e.fields);
      } else {
        EndsSkip(m, (SNull, SNull), Live(front), e.fields);
      }
    }
  }

  /** Agreement up to cells that hold nothing. */
  predicate SameUpToEmpty(op: AggOp, kept: Cell, rebuilt: Cell) {
    kept == rebuilt || (rebuilt == None && kept == Some(NewValue(op)))
  }

  /**
   Incremental maintenance loses nothing: after any valid history the totals of
   every count, sum and average are those of a rebuild from the live records,
   and so are the extremes as long as the state is not dirty.
   */
  lemma RebuildAgrees(fa: FloatArith, h: History, ms: seq<Metric>, j: nat)
    requires DistinctLabels(ms) && Valid(h) && CleanHistory(ms, h) && j < |ms|
    ensures var kept, rebuilt := InRam(fa, h, ms), InRam(fa, Adds(Live(h)), ms);
            && kept.count == rebuilt.count
            && (ms[j].op in {CountOp, SumOp, AvgOp} || !kept.dirty
                ==> SameUpToEmpty(ms[j].op, kept.At(ms[j].name), rebuilt.At(ms[j].name)))
  {
    var m := ms[j];
    var r := Adds(Live(h));
    AddsAreLive(Live(h));
    LiveIsAdded(h);
    forall i | 0 <= i < |ms| ensures CleanAlone(ms[i], r) {
      forall p, q | 0 <= p < |r| && 0 <= q < |r|
        ensures FloatFreeAt(ms[i], r[p].fields) && CleanPair(ms[i], r[p].fields, r[q].fields)
      {
        assert r[p].fields in Live(h) && r[q].fields in Live(h);
        var p' :| 0 <= p' < |h| && h[p'].fields == r[p].fields;
        var q' :| 0 <= q' < |h| && h[q'].fields == r[q].fields;
        assert CleanAlone(ms[i], h);
        assert FloatFreeAt(ms[i], h[p'].fields) && CleanPair(ms[i], h[p'].fields, h[q'].fields);
      }
    }
    InRamTotals(fa, h, ms);
    InRamTotals(fa, r, ms);
    InRamCell(fa, h, ms, j);
    InRamCell(fa, r, ms, j);
    RebuildCell(m, h, ReferenceDirty(ms, h), ms, j);
  }

  lemma RebuildCell(m: Metric, h: History, dirty: bool, ms: seq<Metric>, j: nat)
    requires Valid(h) && j < |ms| && ms[j] == m && dirty == ReferenceDirty(ms, h)
    requires Live(Adds(Live(h))) == Live(h)
    ensures m.op in {CountOp, SumOp, AvgOp} || !dirty
            ==> SameUpToEmpty(m.op, ClampCell(ReferenceCell(m, h)), ClampCell(ReferenceCell(m, Adds(Live(h)))))
  {
    var r := Adds(Live(h));
    if !Touched(m, h) {
      UntouchedLive(m, h);
      assert forall k | 0 <= k < |r| :: r[k].fields in Live(h);
    } else {
      if m.op in {MinOp, MaxOp} && !dirty {
        forall k | 0 <= k < |h| && !h[k].isAdd ensures !Soils(m, h[k].fields, -1) {
          assert !Soils(ms[j], h[k].fields, -1);
        }
        ExtremesOfLive(m, h);
        ExtremesOfAdds(m, Live(h));
      }
      if !Touched(m, r) {
        UntouchedLive(m, r);
        NothingFed(m, Live(h));
        UntouchedExtremes(m, r);
      }
    }
  }
}
