/**
 Exactly when the bucket a query pins is the bucket of every record it matches,
 for every gravity specification, every list of filters and every hash.
 */
module GravityPins {
  import opened Bytes
  import opened FieldDictionary
  import opened Filters
  import opened Gravity
  import opened Sequences
  import opened SpatialKeys
  import opened Values

  // ─── Literals that fix the stored value ────────────────────────────────────

  function Negated(f: F64): F64 {
    if f >= SIGN64 then f - SIGN64 else f + SIGN64
  }

  /** A value with a float zero has an equal twin that differs in the sign of that zero. */
  lemma {:induction false} ZeroTwin(v: Value) returns (x: Value)
    requires !NoZeroFloat(v) && Eq(v, v)
    ensures Eq(x, v) && x != v && !x.Text?
    decreases v
  {
    match v
    case Float(f) => x := Float(Negated(f));
    case List(xs) =>
      var k :| 0 <= k < |xs| && !NoZeroFloat(xs[k]);
      var t := ZeroTwin(xs[k]);
      x := List(xs[k := t]);
      assert x.items[k] != v.items[k];
    case Map(m) =>
      var k :| k in m && !NoZeroFloat(m[k]);
      var t := ZeroTwin(m[k]);
      x := Map(m[k := t]);
      assert x.entries[k] != v.entries[k];
    case Vector(fs) =>
      var k :| 0 <= k < |fs| && fs[k] % 0x8000_0000 == 0;
      x := Vector(fs[k := if fs[k] == 0 then 0x8000_0000 else 0]);
      assert x.floats[k] != v.floats[k];
  }

  /** An equality predicate fixes the stored value exactly when its literal has no float zero, or is never matched. */
  lemma EqPinsIff(v: Value)
    ensures (forall x :: Eq(x, v) ==> x == v) <==> NoZeroFloat(v) || !Eq(v, v)
  {
    if NoZeroFloat(v) {
      forall x | Eq(x, v) ensures x == v { EqWithoutZeros(x, v); }
    } else if Eq(v, v) {
      var twin := ZeroTwin(v);
      assert Eq(twin, v) && twin != v;
    } else {
      forall x ensures !Eq(x, v) {
        EqSymmetric(x, v);
        if Eq(x, v) { EqTransitive(v, x, v); }
      }
    }
  }

  // ─── The record with every gravity field at its literal ────────────────────

  lemma {:induction false} PinnedKeys(ps: seq<Predicate>, names: seq<string>)
    requires PinnedValues(ps, names).Some?
    ensures var vals := PinnedValues(ps, names).value;
            forall n :: (n in vals <==> n in names) && (n in names ==> ScanFor(ps, n) == Exactly(vals[n]))
  {
    if names != [] {
      var front, last := names[..|names| - 1], names[|names| - 1];
      assert names == front + [last];
      PinnedKeys(ps, front);
    }
  }

  /** A matching record still matches with all its gravity fields set to the literals. */
  lemma {:induction false} SettledHolds(f: Fields, ps: seq<Predicate>, names: seq<string>)
    requires HoldsAll(f, ps) && PinnedValues(ps, names).Some? && forall n | n in names :: '.' !in n
    ensures HoldsAll(f + PinnedValues(ps, names).value, ps)
  {
    if names == [] {
      assert f + map[] == f;
    } else {
      var front, last := names[..|names| - 1], names[|names| - 1];
      assert names == front + [last];
      SettledHolds(f, ps, front);
      var g, v := f + PinnedValues(ps, front).value, ScanFor(ps, last).v;
      FoundHolds(g, ps, last);
      EqSymmetric(g[last], v);
      ReplaceEqual(g, last, v, ps);
      assert f + PinnedValues(ps, names).value == g[last := v];
    }
  }

  function ValuesAt(f: Fields, names: seq<string>): (vs: seq<Value>)
    requires forall n | n in names :: n in f
    ensures |vs| == |names| && forall i | 0 <= i < |names| :: vs[i] == f[names[i]]
  {
    seq(|names|, i requires 0 <= i < |names| => f[names[i]])
  }

  lemma {:induction false} GatherAll(f: Fields, names: seq<string>)
    requires forall n | n in names :: n in f
    ensures Gather(f, names) == Some(ValuesAt(f, names))
  {
    if names == [] {
      assert ValuesAt(f, names) == [];
    } else {
      var front, last := names[..|names| - 1], names[|names| - 1];
      assert names == front + [last];
      GatherAll(f, front);
      assert ValuesAt(f, names) == ValuesAt(f, front) + [f[last]];
    }
  }

  lemma {:induction false} GatherMisses(f: Fields, names: seq<string>, name: string)
    requires name in names && name !in f
    ensures Gather(f, names) == None
  {
    var front, last := names[..|names| - 1], names[|names| - 1];
    assert names == front + [last];
    if name != last { GatherMisses(f, front, name); }
  }

  /** All of a record's gravity fields present: it has a hash; one missing: it has none. */
  lemma HashIffPresent(p: Primitives, spec: GravitySpec, f: Fields)
    ensures ComputeHash(p, spec, f).Some? <==> forall n | n in FieldsOf(spec) :: n in f
  {
    var names := FieldsOf(spec);
    if forall n | n in names :: n in f {
      GatherAll(f, names);
    } else {
      var n :| n in names && n !in f;
      GatherMisses(f, names, n);
    }
  }

  lemma PinnedHasHash(p: Primitives, spec: GravitySpec, ps: seq<Predicate>)
    requires PinnedValues(ps, FieldsOf(spec)).Some?
    ensures PinnedHash(p, spec, ps).Some?
  {
    PinnedKeys(ps, FieldsOf(spec));
    HashIffPresent(p, spec, PinnedValues(ps, FieldsOf(spec)).value);
  }

  // ─── Telling two values apart ──────────────────────────────────────────────

  /** Primitives under which `twin` is longer than any other value, and longer strings than `k` hash to 1. */
  function Telling(twin: Value, k: nat): Primitives {
    Primitives((x: Value) => if x == twin then [1] else [], (t, s) => s, (s: seq<Byte>) => if |s| > k then 1 else 0)
  }

  /** With the identity transform every specification hashes its fields as a tuple. */
  lemma AllComposite(twin: Value, k: nat, spec: GravitySpec, f: Fields)
    ensures ComputeHash(Telling(twin, k), spec, f) == ComputeHash(Telling(twin, k), Composite(FieldsOf(spec)), f)
  {
    if spec.Normalized? {
      var p, names := Telling(twin, k), [spec.field];
      assert names[..0] == [] && Gather(f, names[..0]) == Some([]);
      if spec.field in f {
        var v := f[spec.field];
        OneString(p, v);
        OneString(p, Text(p.apply(spec.transform, AnchorString(p, v))));
        assert [] + [v] == [v];
      }
    }
  }

  lemma OneString(p: Primitives, v: Value)
    ensures Combined(p, [v]) == AnchorString(p, v)
  {
    assert [v][..0] == [];
    assert Combined(p, [v][..0]) == [];
  }

  /** Joining values of which none is shorter and one is longer gives a longer string. */
  lemma {:induction false} JoinedLonger(p: Primitives, us: seq<Value>, vs: seq<Value>, j: nat)
    requires |us| == |vs| && forall i | 0 <= i < |us| :: |AnchorString(p, us[i])| <= |AnchorString(p, vs[i])|
    ensures |Combined(p, us)| <= |Combined(p, vs)|
    ensures j < |us| && |AnchorString(p, us[j])| < |AnchorString(p, vs[j])| ==> |Combined(p, us)| < |Combined(p, vs)|
  {
    if us != [] {
      var n := |us| - 1;
      JoinedLonger(p, us[..n], vs[..n], j);
    }
  }

  lemma {:induction false} SameRendering(twin: Value, k: nat, m: nat, vs: seq<Value>)
    ensures Combined(Telling(twin, k), vs) == Combined(Telling(twin, m), vs)
  {
    if vs != [] { SameRendering(twin, k, m, vs[..|vs| - 1]); }
  }

  /** Swapping in the twin somewhere makes the joined string longer. */
  lemma TwinJoinsLonger(twin: Value, k: nat, us: seq<Value>, vs: seq<Value>, j: nat)
    requires |us| == |vs| && j < |us| && vs[j] == twin && us[j] != twin && !us[j].Text? && !twin.Text?
    requires forall i | 0 <= i < |us| :: us[i] == vs[i] || (vs[i] == twin && us[i] == us[j])
    ensures |Combined(Telling(twin, k), us)| < |Combined(Telling(twin, k), vs)|
  {
    JoinedLonger(Telling(twin, k), us, vs, j);
  }

  lemma HashOfTuple(p: Primitives, f: Fields, names: seq<string>)
    requires forall n | n in names :: n in f
    ensures ComputeHash(p, Composite(names), f) == Some(p.hash(Combined(p, ValuesAt(f, names))))
  {
    GatherAll(f, names);
  }

  /** Changing one gravity field to the twin of its value changes the hash. */
  lemma TwinMoves(names: seq<string>, f: Fields, name: string, twin: Value) returns (k: nat)
    requires name in names && (forall n | n in names :: n in f)
    requires !twin.Text? && !f[name].Text? && twin != f[name]
    ensures var p, spec := Telling(twin, k), Composite(names);
            ComputeHash(p, spec, f) == Some(0) && ComputeHash(p, spec, f[name := twin]) == Some(1)
  {
    var g := f[name := twin];
    var us, vs := ValuesAt(f, names), ValuesAt(g, names);
    k := |Combined(Telling(twin, 0), us)|;
    SameRendering(twin, 0, k, us);
    var j :| 0 <= j < |names| && names[j] == name;
    TwinJoinsLonger(twin, k, us, vs, j);
    HashOfTuple(Telling(twin, k), f, names);
    HashOfTuple(Telling(twin, k), g, names);
  }

  // ─── Exactly when pinning is right ─────────────────────────────────────────

  /** Whatever the text primitives are, every matching record is in the bucket the filters pin. */
  ghost predicate AlwaysPlaced(spec: GravitySpec, ps: seq<Predicate>) {
    forall p: Primitives, f: Fields | HoldsAll(f, ps) :: ComputeHash(p, spec, f) == PinnedHash(p, spec, ps)
  }

  /** Every gravity field is a plain name and no pinned literal holds a float zero. */
  predicate Pinnable(spec: GravitySpec, ps: seq<Predicate>) {
    (forall n | n in FieldsOf(spec) :: '.' !in n) && PinsWithoutZeros(ps, FieldsOf(spec))
  }

  /** A record that matches but is placed elsewhere, with primitives whose hashes are 0 and 1. */
  ghost predicate Misplaced(spec: GravitySpec, ps: seq<Predicate>, p: Primitives, f: Fields) {
    && HoldsAll(f, ps) && PinnedHash(p, spec, ps).Some? && PinnedHash(p, spec, ps).value < 2
    && (ComputeHash(p, spec, f) == None
        || (ComputeHash(p, spec, f).value < 2 && ComputeHash(p, spec, f) != PinnedHash(p, spec, ps)))
  }

  lemma DottedMisplaces(spec: GravitySpec, ps: seq<Predicate>, f: Fields, name: string)
    returns (p: Primitives, g: Fields)
    requires PinnedValues(ps, FieldsOf(spec)).Some? && HoldsAll(f, ps) && name in FieldsOf(spec) && '.' in name
    ensures Misplaced(spec, ps, p, g)
  {
    p, g := Telling(Null, 0), f - {name};
    DottedUnreached(f, g, name, ps);
    HashIffPresent(p, spec, g);
    PinnedHasHash(p, spec, ps);
  }

  lemma ZeroMisplaces(spec: GravitySpec, ps: seq<Predicate>, f: Fields, name: string) returns (p: Primitives, g: Fields)
    requires PinnedValues(ps, FieldsOf(spec)).Some? && HoldsAll(f, ps) && (forall n | n in FieldsOf(spec) :: '.' !in n)
    requires name in FieldsOf(spec) && ScanFor(ps, name).Exactly? && !NoZeroFloat(ScanFor(ps, name).v)
    ensures Misplaced(spec, ps, p, g)
  {
    var names := FieldsOf(spec);
    var vals, v := PinnedValues(ps, names).value, ScanFor(ps, name).v;
    PinnedKeys(ps, names);
    FoundHolds(f, ps, name);
    MatchedIsReflexive(f[name], v);
    var twin := ZeroTwin(v);
    var settled := f + vals;
    SettledHolds(f, ps, names);
    g := settled[name := twin];
    ReplaceEqual(settled, name, twin, ps);
    var k := TwinMoves(names, settled, name, twin);
    p := Telling(twin, k);
    AllComposite(twin, k, spec, g);
    AllComposite(twin, k, spec, vals);
    GatherAgrees(settled, vals, names);
  }

  lemma MatchedIsReflexive(x: Value, v: Value)
    requires Eq(x, v)
    ensures Eq(v, v)
  {
    EqSymmetric(x, v);
    EqTransitive(v, x, v);
  }

  lemma UnpinnableMisplaces(spec: GravitySpec, ps: seq<Predicate>) returns (p: Primitives, g: Fields)
    requires PinnedValues(ps, FieldsOf(spec)).Some? && Matchable(ps) && !Pinnable(spec, ps)
    ensures Misplaced(spec, ps, p, g)
  {
    var f: Fields :| HoldsAll(f, ps);
    if n :| n in FieldsOf(spec) && '.' in n {
      p, g := DottedMisplaces(spec, ps, f, n);
    } else {
      var n :| n in FieldsOf(spec) && ScanFor(ps, n).Exactly? && !NoZeroFloat(ScanFor(ps, n).v);
      p, g := ZeroMisplaces(spec, ps, f, n);
    }
  }

  /**
   For every specification and every list of filters that pins it: the pinned
   bucket is right for every matching record and every hash exactly when no
   record matches at all, or the gravity fields are plain names and no pinned
   literal holds a float zero.
   */
  lemma PinIff(spec: GravitySpec, ps: seq<Predicate>)
    requires PinnedValues(ps, FieldsOf(spec)).Some?
    ensures AlwaysPlaced(spec, ps) <==> !Matchable(ps) || Pinnable(spec, ps)
  {
    if Matchable(ps) && !Pinnable(spec, ps) {
      var p, g := UnpinnableMisplaces(spec, ps);
      assert HoldsAll(g, ps) && ComputeHash(p, spec, g) != PinnedHash(p, spec, ps);
    } else if Pinnable(spec, ps) {
      forall p: Primitives, f: Fields | HoldsAll(f, ps) ensures ComputeHash(p, spec, f) == PinnedHash(p, spec, ps) {
        PinnedHasHash(p, spec, ps);
        PinnedIsPlaced(p, spec, ps, f);
      }
    }
  }

  // ─── One equality per gravity field ────────────────────────────────────────

  function Nested(parts: seq<string>, v: Value): Value {
    if parts == [] then v else Map(map[parts[0] := Nested(parts[1..], v)])
  }

  lemma {:induction false} NestedResolves(parts: seq<string>, v: Value)
    ensures Walk(Nested(parts, v), parts) == Some(v)
  {
    if parts != [] { NestedResolves(parts[1..], v); }
  }

  /** One equality for each gravity field. */
  function Equalities(names: seq<string>, vs: seq<Value>): (ps: seq<Predicate>)
    requires |names| == |vs|
    ensures |ps| == |names|
  {
    seq(|names|, i requires 0 <= i < |names| => Predicate(names[i], OpEq, vs[i]))
  }

  /** No two gravity fields start at the same top-level field. */
  predicate Apart(names: seq<string>) {
    forall i, j | 0 <= i < j < |names| :: Split(names[i])[0] != Split(names[j])[0]
  }

  /** The record that holds each literal at the end of its gravity path. */
  function Holding(names: seq<string>, vs: seq<Value>): Fields
    requires |names| == |vs|
  {
    if names == [] then map[]
    else
      var n, parts := |names| - 1, Split(names[|names| - 1]);
      Holding(names[..n], vs[..n])[parts[0] := Nested(parts[1..], vs[n])]
  }

  lemma {:induction false} HoldingResolves(names: seq<string>, vs: seq<Value>, i: nat)
    requires |names| == |vs| && Apart(names) && i < |names|
    ensures ResolvePath(Holding(names, vs), names[i]) == Some(vs[i])
  {
    var n := |names| - 1;
    if i < n {
      HoldingResolves(names[..n], vs[..n], i);
    } else {
      NestedResolves(Split(names[n])[1..], vs[n]);
    }
  }

  lemma {:induction false} ScanAbsent(names: seq<string>, vs: seq<Value>, name: string)
    requires |names| == |vs| && name !in names
    ensures ScanFor(Equalities(names, vs), name) == Absent
  {
    if names != [] {
      var n, ps := |names| - 1, Equalities(names, vs);
      assert ps[..n] == Equalities(names[..n], vs[..n]);
      ScanAbsent(names[..n], vs[..n], name);
    }
  }

  lemma {:induction false} ScanPresent(names: seq<string>, vs: seq<Value>, i: nat)
    requires |names| == |vs| && Apart(names) && i < |names|
    ensures ScanFor(Equalities(names, vs), names[i]) == Exactly(vs[i])
  {
    var n, ps := |names| - 1, Equalities(names, vs);
    assert ps[..n] == Equalities(names[..n], vs[..n]);
    if i < n {
      ScanPresent(names[..n], vs[..n], i);
      assert names[i] != names[n];
    } else {
      assert names[n] !in names[..n];
      ScanAbsent(names[..n], vs[..n], names[n]);
    }
  }

  lemma {:induction false} EqualitiesPin(names: seq<string>, vs: seq<Value>, k: nat)
    requires |names| == |vs| && Apart(names) && k <= |names|
    ensures PinnedValues(Equalities(names, vs), names[..k]).Some?
  {
    if k > 0 {
      EqualitiesPin(names, vs, k - 1);
      assert names[..k][..k - 1] == names[..k - 1];
      ScanPresent(names, vs, k - 1);
    }
  }

  /** Some record satisfies the equalities exactly when every literal equals itself (a NaN does not). */
  lemma EqualitiesMatchable(names: seq<string>, vs: seq<Value>)
    requires |names| == |vs| && Apart(names)
    ensures Matchable(Equalities(names, vs)) <==> forall i | 0 <= i < |vs| :: Eq(vs[i], vs[i])
  {
    var ps := Equalities(names, vs);
    if forall i | 0 <= i < |vs| :: Eq(vs[i], vs[i]) {
      forall k | 0 <= k < |ps| ensures Holds(Holding(names, vs), ps[k]) { HoldingResolves(names, vs, k); }
      assert HoldsAll(Holding(names, vs), ps);
    }
    if Matchable(ps) {
      var f: Fields :| HoldsAll(f, ps);
      forall i | 0 <= i < |vs| ensures Eq(vs[i], vs[i]) {
        assert Holds(f, ps[i]);
        MatchedIsReflexive(ResolvePath(f, names[i]).value, vs[i]);
      }
    }
  }

  /**
   With one equality per gravity field, for raw, normalized and composite
   specifications: right for every record and hash exactly when some literal
   matches nothing, or all names are plain and no literal holds a float zero.
   */
  lemma EqualitiesPinIff(spec: GravitySpec, vs: seq<Value>)
    requires |vs| == |FieldsOf(spec)| && Apart(FieldsOf(spec))
    ensures AlwaysPlaced(spec, Equalities(FieldsOf(spec), vs))
            <==> (exists i | 0 <= i < |vs| :: !Eq(vs[i], vs[i]))
                 || ((forall n | n in FieldsOf(spec) :: '.' !in n) && forall i | 0 <= i < |vs| :: NoZeroFloat(vs[i]))
  {
    var names := FieldsOf(spec);
    var ps := Equalities(names, vs);
    EqualitiesPin(names, vs, |names|);
    assert names[..|names|] == names;
    PinIff(spec, ps);
    EqualitiesMatchable(names, vs);
    forall i | 0 <= i < |vs| ensures ScanFor(ps, names[i]) == Exactly(vs[i]) { ScanPresent(names, vs, i); }
    assert PinsWithoutZeros(ps, names) <==> forall i | 0 <= i < |vs| :: NoZeroFloat(vs[i]);
  }

  /** For a single raw or normalized gravity field, dotted or not. */
  lemma SinglePinIff(spec: GravitySpec, field: string, v: Value)
    requires FieldsOf(spec) == [field]
    ensures AlwaysPlaced(spec, [Predicate(field, OpEq, v)]) <==> !Eq(v, v) || ('.' !in field && NoZeroFloat(v))
  {
    assert Equalities([field], [v]) == [Predicate(field, OpEq, v)];
    EqualitiesPinIff(spec, [v]);
    assert [v][0] == v;
  }

  // ─── Exactly when the bounded scan is the lobe scan ────────────────────────

  ghost predicate AlwaysSameScan(spec: GravitySpec, e: Option<FilterExpr>) {
    forall p: Primitives, entries: seq<Entry>, lobe: U16 |
        (forall x | x in entries :: Placed(p, spec, x)) && PinnedHash(p, spec, FlatFilters(e)).Some? ::
      BucketScan(entries, lobe, PinnedHash(p, spec, FlatFilters(e)).value, e) == LobeScan(entries, lobe, e)
  }

  /** A matching row outside the bucket is in the lobe's rows and not in the bucket's. */
  lemma RowMissed(x: Entry, lobe: U16, h: nat, e: Option<FilterExpr>)
    requires !InBucket(x.0, lobe, h) && x.0.lobe == lobe && MatchesOpt(x.1.fields, e)
    ensures BucketScan([x], lobe, h, e) != LobeScan([x], lobe, e)
  {
    KeepOne(x, (y: Entry) => InBucket(y.0, lobe, h) && MatchesOpt(y.1.fields, e));
    KeepOne(x, (y: Entry) => y.0.lobe == lobe && MatchesOpt(y.1.fields, e));
  }

  lemma RowDiffers(spec: GravitySpec, e: Option<FilterExpr>, p: Primitives, x: Entry, lobe: U16, h: nat)
    requires PinnedHash(p, spec, FlatFilters(e)) == Some(h) && Placed(p, spec, x)
    requires x.0.lobe == lobe && x.0.gravity != h % U48 && MatchesOpt(x.1.fields, e)
    ensures !AlwaysSameScan(spec, e)
  {
    GravityRangeIff(x.0, lobe, h);
    RowMissed(x, lobe, h, e);
    var entries := [x];
    assert forall y | y in entries :: Placed(p, spec, y);
  }

  lemma MisplacedIsMissed(spec: GravitySpec, e: Option<FilterExpr>, p: Primitives, f: Fields, r: Record)
    requires Misplaced(spec, FlatFilters(e), p, f) && MatchesOpt(f, e) && r.fields == f
    ensures !AlwaysSameScan(spec, e)
  {
    var h, own := PinnedHash(p, spec, FlatFilters(e)).value, ComputeHash(p, spec, f);
    var gravity := if own.Some? then own.value else 1 - h;
    var key := SpatialKey(0, gravity, 0, 0, 0, 0);
    RowDiffers(spec, e, p, (key, r), key.lobe, h);
  }

  lemma KeepOne<T>(x: T, p: T -> bool)
    ensures Keep([x], p) == if p(x) then [x] else []
  {
    assert [x][..0] == [];
    assert Keep([x][..0], p) == [];
  }

  /**
   For every placement specification and query that pins it, scanning only the
   pinned bucket gives the lobe's rows in key order for every content and hash
   exactly when no record satisfies the flat filters or the pins are pinnable.
   */
  lemma BucketScanIff(spec: GravitySpec, e: Option<FilterExpr>)
    requires PinnedValues(FlatFilters(e), FieldsOf(spec)).Some?
    ensures AlwaysSameScan(spec, e) <==> !Matchable(FlatFilters(e)) || Pinnable(spec, FlatFilters(e))
  {
    var ps := FlatFilters(e);
    if Matchable(ps) && !Pinnable(spec, ps) {
      var p, g := UnpinnableMisplaces(spec, ps);
      PinningIsFlat(spec, e, g);
      MisplacedIsMissed(spec, e, p, g, Record(0, "", g, 0, 0));
    } else {
      PinIff(spec, ps);
      forall p: Primitives, entries: seq<Entry>, lobe: U16 |
          (forall x | x in entries :: Placed(p, spec, x)) && PinnedHash(p, spec, ps).Some?
        ensures BucketScan(entries, lobe, PinnedHash(p, spec, ps).value, e) == LobeScan(entries, lobe, e)
      {
        PlacedScan(p, spec, entries, lobe, e);
      }
    }
  }

  /** A query that pins a gravity field is a pure AND, so its flat filters are it. */
  lemma PinningIsFlat(spec: GravitySpec, e: Option<FilterExpr>, f: Fields)
    requires PinnedValues(FlatFilters(e), FieldsOf(spec)).Some? && FieldsOf(spec) != [] && HoldsAll(f, FlatFilters(e))
    ensures MatchesOpt(f, e)
  {
    PinnedKeys(FlatFilters(e), FieldsOf(spec));
    assert FieldsOf(spec)[0] in FieldsOf(spec);
    if e.Some? {
      assert AsFlatAnd(e.value).Some? by { assert FlatFilters(e) != []; }
      FlatAndMeaning(f, e.value);
    }
  }

  lemma PlacedScan(p: Primitives, spec: GravitySpec, entries: seq<Entry>, lobe: U16, e: Option<FilterExpr>)
    requires (forall x | x in entries :: Placed(p, spec, x)) && PinnedHash(p, spec, FlatFilters(e)).Some?
    requires AlwaysPlaced(spec, FlatFilters(e))
    ensures BucketScan(entries, lobe, PinnedHash(p, spec, FlatFilters(e)).value, e) == LobeScan(entries, lobe, e)
  {
    var h := PinnedHash(p, spec, FlatFilters(e)).value;
    var narrow := (x: Entry) => InBucket(x.0, lobe, h) && MatchesOpt(x.1.fields, e);
    var wide := (x: Entry) => x.0.lobe == lobe && MatchesOpt(x.1.fields, e);
    forall x | x in entries ensures narrow(x) <==> wide(x) {
      assert Placed(p, spec, x);
      GravityRangeIff(x.0, lobe, h);
      if MatchesOpt(x.1.fields, e) { FlatFiltersNecessary(x.1.fields, e); }
    }
    KeepFewer(entries, narrow, wide);
  }

  // ─── Records that are missed ───────────────────────────────────────────────

  /** `x = 0.0` pins the bucket of the literal; a record with -0.0 matches and is placed by its own rendering. */
  lemma SignedZeroMisses(p: Primitives)
    requires p.hash(p.render(Float(0))) != p.hash(p.render(Float(SIGN64)))
    ensures var f: Fields, ps := map["x" := Float(SIGN64)], [Predicate("x", OpEq, Float(0))];
            HoldsAll(f, ps) && ComputeHash(p, Raw("x"), f) != PinnedHash(p, Raw("x"), ps)
  {
    var f: Fields, ps := map["x" := Float(SIGN64)], Equalities(["x"], [Float(0)]);
    assert ps == [Predicate("x", OpEq, Float(0))];
    assert ResolvePath(f, "x") == Lookup(f, "x");
    ScanPresent(["x"], [Float(0)], 0);
    EqualitiesPin(["x"], [Float(0)], 1);
    assert ["x"][..1] == ["x"];
    PinnedKeys(ps, ["x"]);
    RawHash(p, "x", f);
    RawHash(p, "x", PinnedValues(ps, ["x"]).value);
  }

  lemma RawHash(p: Primitives, field: string, f: Fields)
    requires field in f
    ensures ComputeHash(p, Raw(field), f) == Some(p.hash(AnchorString(p, f[field])))
  {
    GatherAll(f, [field]);
    assert ValuesAt(f, [field]) == [f[field]];
    OneString(p, f[field]);
  }

  /** A dotted gravity field is resolved as a path by the filter but looked up by its full name when placing. */
  lemma DottedFieldMisses(p: Primitives)
    ensures var f: Fields, ps := map["a" := Map(map["b" := Int(1)])], [Predicate("a.b", OpEq, Int(1))];
            HoldsAll(f, ps) && PinnedHash(p, Raw("a.b"), ps).Some? && ComputeHash(p, Raw("a.b"), f) == None
  {
    var f: Fields, ps := map["a" := Map(map["b" := Int(1)])], Equalities(["a.b"], [Int(1)]);
    assert ps == [Predicate("a.b", OpEq, Int(1))];
    SplitDotted();
    assert Walk(f["a"], ["b"]) == Some(Int(1));
    EqualitiesPin(["a.b"], [Int(1)], 1);
    assert ["a.b"][..1] == ["a.b"];
    PinnedHasHash(p, Raw("a.b"), ps);
    HashIffPresent(p, Raw("a.b"), f);
    assert "a.b" !in f;
  }
}
