/**
 Which literals on which group fields a ghost's precomputed groups can answer: for
 every value, floats and nested values included, and for dotted group fields.
 */
module PrecomputedPins {
  import opened Aggregates
  import opened Bytes
  import opened Filters
  import opened GravityPins
  import opened GroupKeys
  import opened Precomputed
  import opened Router
  import opened Values

  /** The group of a literal holds exactly the values that equal it. */
  ghost predicate PinExact(rd: Rendering, v: Value) {
    forall x | |FragmentOf(rd, x)| < USIZE ::
      FragmentOf(rd, x) == FragmentOf(rd, Some(v)) <==> x.Some? && Eq(x.value, v)
  }

  /** Every equality is on a plain name, equals the first one on that name, and that one's group is exact. */
  ghost predicate ExactPins(rd: Rendering, q: Query) {
    forall k | 0 <= k < |q.filters| ::
      var p, first := q.filters[k], FirstEq(q.filters, q.filters[k].field);
      '.' !in p.field && first.Some? && Eq(first.value, p.value) && PinExact(rd, first.value)
  }

  /** The queries a whole-lobe ghost is asked: equalities on its group fields. */
  predicate OnlyPins(m: Meta, q: Query) {
    forall k | 0 <= k < |q.filters| :: q.filters[k].op == OpEq && q.filters[k].field in m.groupFields
  }

  lemma WholeLobePins(m: Meta, q: Query)
    requires ServesAggregates(m, q) && m.filterFields == []
    ensures OnlyPins(m, q)
  {
    forall k | 0 <= k < |q.filters| ensures q.filters[k].op == OpEq && q.filters[k].field in m.groupFields {
      assert Covered(m, q.filters[k]);
    }
  }

  // ─── Exact pins serve exactly ──────────────────────────────────────────────

  lemma PinnedHolds(rd: Rendering, m: Meta, q: Query, f: Fields, k: nat)
    requires OnlyPins(m, q) && ExactPins(rd, q) && k < |q.filters| && Addressable(Fragments(rd, f, m.groupFields))
    requires Selected(rd, f, m.groupFields, PinsOf(rd, m.groupFields, q.filters))
    ensures Holds(f, q.filters[k])
  {
    var gf, p := m.groupFields, q.filters[k];
    var i :| 0 <= i < |gf| && gf[i] == p.field;
    var first := FirstEq(q.filters, p.field).value;
    assert PinsOf(rd, gf, q.filters)[i] == Some(FragmentOf(rd, Some(first)));
    assert Fragments(rd, f, gf)[i] == FragmentOf(rd, Lookup(f, p.field));
    UndottedPath(f, p.field);
    EqTransitive(Lookup(f, p.field).value, first, p.value);
  }

  lemma HeldIsPinned(rd: Rendering, m: Meta, q: Query, f: Fields, i: nat)
    requires OnlyPins(m, q) && ExactPins(rd, q) && HoldsAll(f, q.filters) && i < |m.groupFields|
    requires Addressable(Fragments(rd, f, m.groupFields)) && PinsOf(rd, m.groupFields, q.filters)[i].Some?
    ensures Fragments(rd, f, m.groupFields)[i] == PinsOf(rd, m.groupFields, q.filters)[i].value
  {
    var gf := m.groupFields;
    var first := FirstEq(q.filters, gf[i]).value;
    var k :| 0 <= k < |q.filters| && q.filters[k] == Predicate(gf[i], OpEq, first);
    assert Holds(f, q.filters[k]);
    UndottedPath(f, gf[i]);
    assert Fragments(rd, f, gf)[i] == FragmentOf(rd, Lookup(f, gf[i]));
  }

  lemma ExactServes(rd: Rendering, m: Meta, q: Query, f: Fields)
    requires WellRegistered(m) && WellPosed(q) && FlatQuery(q) && OnlyPins(m, q) && ExactPins(rd, q)
    requires m.filterFields == [] && AsFlatAnd(m.filter).Some? && Addressable(Fragments(rd, f, m.groupFields))
    ensures Served(rd, m, q, f) <==> MatchesOpt(f, q.expr)
  {
    FlatAndMeaning(f, m.filter);
    FlatMeaning(q, f);
    if Served(rd, m, q, f) {
      forall k | 0 <= k < |q.filters| ensures Holds(f, q.filters[k]) { PinnedHolds(rd, m, q, f, k); }
    }
    if HoldsAll(f, q.filters) {
      forall i | 0 <= i < |m.groupFields| && PinsOf(rd, m.groupFields, q.filters)[i].Some?
        ensures Fragments(rd, f, m.groupFields)[i] == PinsOf(rd, m.groupFields, q.filters)[i].value
      {
        HeldIsPinned(rd, m, q, f, i);
      }
    }
  }

  // ─── Others do not ─────────────────────────────────────────────────────────

  function With(f: Fields, name: string, x: Option<Value>): Fields {
    if x.Some? then f[name := x.value] else f - {name}
  }

  /** Two records alike but for one field are told apart by the fragments at that field alone. */
  lemma OneFragment(rd: Rendering, f: Fields, gf: seq<string>, name: string, x: Option<Value>, i: nat)
    requires i < |gf|
    ensures Fragments(rd, With(f, name, x), gf)[i]
            == if gf[i] == name then FragmentOf(rd, x) else Fragments(rd, f, gf)[i]
  {
  }

  lemma StaysAddressable(rd: Rendering, f: Fields, gf: seq<string>, name: string, x: Option<Value>)
    requires Addressable(Fragments(rd, f, gf)) && |FragmentOf(rd, x)| < USIZE
    ensures Addressable(Fragments(rd, With(f, name, x), gf))
  {
    forall i | 0 <= i < |gf| ensures |Fragments(rd, With(f, name, x), gf)[i]| < USIZE {
      OneFragment(rd, f, gf, name, x, i);
    }
  }

  /** A selected record stays selected exactly when the field's fragment stays. */
  lemma StaysSelected(rd: Rendering, m: Meta, q: Query, f: Fields, name: string, x: Option<Value>)
    requires Selected(rd, f, m.groupFields, PinsOf(rd, m.groupFields, q.filters))
    requires name in m.groupFields && FirstEq(q.filters, name).Some?
    ensures Selected(rd, With(f, name, x), m.groupFields, PinsOf(rd, m.groupFields, q.filters))
            <==> FragmentOf(rd, x) == FragmentOf(rd, Some(FirstEq(q.filters, name).value))
  {
    var gf := m.groupFields;
    var pins := PinsOf(rd, gf, q.filters);
    forall i | 0 <= i < |gf|
      ensures Fragments(rd, With(f, name, x), gf)[i]
              == if gf[i] == name then FragmentOf(rd, x) else Fragments(rd, f, gf)[i]
    {
      OneFragment(rd, f, gf, name, x, i);
    }
    var j :| 0 <= j < |gf| && gf[j] == name;
    assert pins[j] == Some(FragmentOf(rd, Some(FirstEq(q.filters, name).value)));
  }

  /** A record the route gets wrong. */
  ghost predicate Wrong(rd: Rendering, m: Meta, q: Query, f: Fields) {
    Addressable(Fragments(rd, f, m.groupFields)) && Served(rd, m, q, f) != MatchesOpt(f, q.expr)
  }

  ghost predicate Asked(rd: Rendering, m: Meta, q: Query) {
    && WellRegistered(m) && WellPosed(q) && FlatQuery(q) && OnlyPins(m, q)
    && m.filterFields == [] && AsFlatAnd(m.filter).Some?
    && Addressable(Fragments(rd, Witness(m, q), m.groupFields))
  }

  lemma ServedIffSelected(rd: Rendering, m: Meta, q: Query, f: Fields)
    requires Asked(rd, m, q)
    ensures Served(rd, m, q, f) <==> Selected(rd, f, m.groupFields, PinsOf(rd, m.groupFields, q.filters))
    ensures MatchesOpt(f, q.expr) <==> HoldsAll(f, q.filters)
  {
    FlatAndMeaning(f, m.filter);
    FlatMeaning(q, f);
  }

  /** Changing the witness at one field, when the change and the witness are not both served and wanted alike. */
  lemma WrongSomewhere(rd: Rendering, m: Meta, q: Query, name: string, x: Option<Value>) returns (f: Fields)
    requires Asked(rd, m, q) && name in m.groupFields && FirstEq(q.filters, name).Some? && |FragmentOf(rd, x)| < USIZE
    requires var w := Witness(m, q);
             HoldsAll(w, q.filters) ==>
               (HoldsAll(With(w, name, x), q.filters)
                <==> FragmentOf(rd, x) != FragmentOf(rd, Some(FirstEq(q.filters, name).value)))
    ensures Wrong(rd, m, q, f)
  {
    var w := Witness(m, q);
    var g := With(w, name, x);
    WitnessSelected(rd, m, q);
    StaysSelected(rd, m, q, w, name, x);
    StaysAddressable(rd, w, m.groupFields, name, x);
    ServedIffSelected(rd, m, q, w);
    ServedIffSelected(rd, m, q, g);
    f := if HoldsAll(w, q.filters) then g else w;
  }

  /** A value in another group than the literal's. */
  function Elsewhere(v: Value): Option<Value> {
    if v == Null then Some(Text([])) else None
  }

  lemma ElsewhereApart(rd: Rendering, v: Value)
    ensures FragmentOf(rd, Elsewhere(v)) != FragmentOf(rd, Some(v)) && |FragmentOf(rd, Elsewhere(v))| < USIZE
  {
    assert FragmentOf(rd, Some(v))[0] == TAG_NULL <==> v == Null;
    assert FragmentOf(rd, Elsewhere(v))[0] == if v == Null then TAG_TEXT else TAG_NULL;
  }

  /** Dropping or filling a dotted group field changes the group and nothing a filter can see. */
  lemma DottedIsWrong(rd: Rendering, m: Meta, q: Query, k: nat) returns (f: Fields)
    requires Asked(rd, m, q) && k < |q.filters| && '.' in q.filters[k].field
    ensures Wrong(rd, m, q, f)
  {
    var name := q.filters[k].field;
    assert FirstEq(q.filters, name).Some?;
    var x, w := Elsewhere(FirstEq(q.filters, name).value), Witness(m, q);
    ElsewhereApart(rd, FirstEq(q.filters, name).value);
    DottedUnreached(w, With(w, name, x), name, q.filters);
    f := WrongSomewhere(rd, m, q, name, x);
  }

  /** The witness carries the first literal, so a second one it does not equal fails on it. */
  lemma ConflictIsWrong(rd: Rendering, m: Meta, q: Query, k: nat)
    requires Asked(rd, m, q) && k < |q.filters| && '.' !in q.filters[k].field
    requires FirstEq(q.filters, q.filters[k].field).Some?
    requires !Eq(FirstEq(q.filters, q.filters[k].field).value, q.filters[k].value)
    ensures Wrong(rd, m, q, Witness(m, q))
  {
    var w := Witness(m, q);
    WitnessSelected(rd, m, q);
    ServedIffSelected(rd, m, q, w);
    UndottedPath(w, q.filters[k].field);
    assert !Holds(w, q.filters[k]);
  }

  lemma LumpedFails(q: Query, w: Fields, k: nat, x: Option<Value>)
    requires k < |q.filters| && '.' !in q.filters[k].field && q.filters[k].op == OpEq
    requires x.Some? ==> !Eq(x.value, q.filters[k].value)
    ensures !HoldsAll(With(w, q.filters[k].field, x), q.filters)
  {
    UndottedPath(With(w, q.filters[k].field, x), q.filters[k].field);
    assert !Holds(With(w, q.filters[k].field, x), q.filters[k]);
  }

  lemma EqualStillHolds(m: Meta, q: Query, k: nat, x: Value)
    requires k < |q.filters| && '.' !in q.filters[k].field && q.filters[k].op == OpEq
    requires HoldsAll(Witness(m, q), q.filters) && FirstEq(q.filters, q.filters[k].field).Some?
    requires Eq(x, FirstEq(q.filters, q.filters[k].field).value)
    ensures HoldsAll(With(Witness(m, q), q.filters[k].field, Some(x)), q.filters)
  {
    var w, name := Witness(m, q), q.filters[k].field;
    UndottedPath(w, name);
    assert Holds(w, q.filters[k]);
    ReplaceEqual(w, name, x, q.filters);
  }

  /** A value lumped with the literal but not equal to it, or equal to it but grouped apart, is answered wrongly. */
  lemma InexactIsWrong(rd: Rendering, m: Meta, q: Query, k: nat) returns (f: Fields)
    requires Asked(rd, m, q) && k < |q.filters| && '.' !in q.filters[k].field
    requires FirstEq(q.filters, q.filters[k].field).Some?
    requires !PinExact(rd, FirstEq(q.filters, q.filters[k].field).value)
    ensures Wrong(rd, m, q, f)
  {
    var name := q.filters[k].field;
    var first := FirstEq(q.filters, name).value;
    var j :| 0 <= j < |q.filters| && q.filters[j] == Predicate(name, OpEq, first);
    var x :| |FragmentOf(rd, x)| < USIZE
             && (FragmentOf(rd, x) == FragmentOf(rd, Some(first))) != (x.Some? && Eq(x.value, first));
    if x.Some? && Eq(x.value, first) {
      if HoldsAll(Witness(m, q), q.filters) { EqualStillHolds(m, q, j, x.value); }
    } else {
      LumpedFails(q, Witness(m, q), j, x);
    }
    f := WrongSomewhere(rd, m, q, name, x);
  }

  lemma FirstOfPinned(q: Query, k: nat)
    requires k < |q.filters| && q.filters[k].op == OpEq
    ensures FirstEq(q.filters, q.filters[k].field).Some?
  {
  }

  lemma InexactPins(rd: Rendering, m: Meta, q: Query) returns (f: Fields)
    requires Asked(rd, m, q) && !ExactPins(rd, q)
    ensures Wrong(rd, m, q, f)
  {
    var k :| 0 <= k < |q.filters| && var p, first := q.filters[k], FirstEq(q.filters, q.filters[k].field);
             !('.' !in p.field && first.Some? && Eq(first.value, p.value) && PinExact(rd, first.value));
    FirstOfPinned(q, k);
    if '.' in q.filters[k].field {
      f := DottedIsWrong(rd, m, q, k);
    } else if !Eq(FirstEq(q.filters, q.filters[k].field).value, q.filters[k].value) {
      ConflictIsWrong(rd, m, q, k);
      f := Witness(m, q);
    } else {
      f := InexactIsWrong(rd, m, q, k);
    }
  }

  /**
   A ghost over the whole lobe and a pure AND query, with any literals and any
   group fields: the route is right for every lobe exactly when every equality is
   on a plain name, equals the first one there, and that one's group is exact.
   */
  lemma AnyPinsExact(fa: FloatArith, rd: Rendering, m: Meta, q: Query, ms: seq<Metric>)
    requires WellRegistered(m) && WellPosed(q) && Relevant(m, q) && ServesAggregates(m, q)
    requires m.filterFields == [] && AsFlatAnd(m.filter).Some? && FlatQuery(q)
    requires Addressable(Fragments(rd, Witness(m, q), m.groupFields))
    ensures AlwaysRight(fa, rd, m, q, ms) <==> ExactPins(rd, q)
  {
    PrecomputedExact(fa, rd, m, q, ms);
    WholeLobePins(m, q);
    if ExactPins(rd, q) {
      forall f: Fields | Addressable(Fragments(rd, f, m.groupFields))
        ensures Served(rd, m, q, f) <==> MatchesOpt(f, q.expr)
      {
        ExactServes(rd, m, q, f);
      }
    } else {
      var f := InexactPins(rd, m, q);
    }
  }

  // ─── Which literals have exact groups ──────────────────────────────────────

  /** Values are displayed apart, unless they hold a NaN. */
  ghost predicate Faithful(rd: Rendering) {
    forall x, y :: FragmentOf(rd, Some(x)) == FragmentOf(rd, Some(y)) && Eq(x, x) ==> x == y
  }

  lemma NotNullApart(rd: Rendering, v: Value)
    requires v != Null
    ensures FragmentOf(rd, None) != FragmentOf(rd, Some(v))
  {
    assert FragmentOf(rd, Some(v))[0] != TAG_NULL;
  }

  /** Under a faithful display a literal's group is exact unless it is null, holds a NaN or holds a float zero. */
  lemma FaithfulPinIff(rd: Rendering, v: Value)
    requires Faithful(rd) && forall x | Eq(x, v) || x == v :: |FragmentOf(rd, Some(x))| < USIZE
    ensures PinExact(rd, v) <==> v != Null && Eq(v, v) && NoZeroFloat(v)
  {
    if v == Null {
      assert FragmentOf(rd, None) == FragmentOf(rd, Some(v)) && |FragmentOf(rd, None)| < USIZE;
    } else if !Eq(v, v) {
      assert FragmentOf(rd, Some(v)) == FragmentOf(rd, Some(v));
    } else if !NoZeroFloat(v) {
      var twin := ZeroTwin(v);
      EqSymmetric(twin, v);
      EqTransitive(twin, v, twin);
      assert FragmentOf(rd, Some(twin)) != FragmentOf(rd, Some(v));
    } else {
      NotNullApart(rd, v);
      forall x: Option<Value>
        ensures FragmentOf(rd, x) == FragmentOf(rd, Some(v)) <==> x.Some? && Eq(x.value, v)
      {
        if x.Some? && Eq(x.value, v) { EqWithoutZeros(x.value, v); }
      }
    }
  }
}
