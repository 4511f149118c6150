/** When skipping a block by its zone map loses no record: exactly which blocks are safe. */
module ZoneSkipping {
  import opened Bytes
  import opened Filters
  import opened FloatOrder
  import opened Values
  import opened ZoneMaps

  ghost predicate ZonesOf(zones: BlockZones, tracked: seq<string>, block: seq<Entry>) {
    forall f :: IsZoneOf(zones, tracked, block, f)
  }

  predicate AllDecode(block: seq<Entry>) {
    forall i | 0 <= i < |block| :: block[i].decodes
  }

  /** What `might_match` computes. */
  predicate Passes(zones: BlockZones, ps: seq<Predicate>) {
    forall i | 0 <= i < |ps| :: !Rejects(zones, ps[i])
  }

  // ─── Values outside a zone ─────────────────────────────────────────────────

  predicate AtLeast(c: Option<Ordering>) {
    c == Some(Greater) || c == Some(Ordering.Equal)
  }

  predicate AtMost(c: Option<Ordering>) {
    c == Some(Less) || c == Some(Ordering.Equal)
  }

  predicate Above(max: Value, v: Value) {
    match (max, v)
    case (Int(hi), Float(x)) => hi < MAX64 && AtLeast(F64Cmp(x, IntToF64(hi + 1)))
    case (Float(hi), Int(i)) => F64Cmp(IntToF64(i), hi) == Some(Greater)
    case _ => false
  }

  predicate Below(min: Value, v: Value) {
    match (min, v)
    case (Int(lo), Float(x)) => lo > MIN64 && AtMost(F64Cmp(x, IntToF64(lo - 1)))
    case (Float(lo), Int(i)) => F64Cmp(IntToF64(i), lo) == Some(Less)
    case _ => false
  }

  /** A number of the type the zone ignores, beyond what the zone covers. */
  predicate Strays(z: FieldZone, v: Value) {
    (z.max.Some? && Above(z.max.value, v)) || (z.min.Some? && Below(z.min.value, v))
  }

  /** A value the zone's own comparison puts past its maximum or short of its minimum. */
  predicate Exceeds(z: FieldZone, v: Value) {
    (z.max.Some? && ValueCmp(v, z.max.value) == Greater) || (z.min.Some? && ValueCmp(v, z.min.value) == Less)
  }

  predicate Outside(z: FieldZone, v: Value) {
    Strays(z, v) || Exceeds(z, v)
  }

  // ─── A wrong skip has such a value ─────────────────────────────────────────

  lemma EqualCompare(a: Value, b: Value, c: Value)
    requires Eq(a, b)
    ensures ValueCmp(a, c) == ValueCmp(b, c)
  {
  }

  lemma FloatAboveInts(x: F64, hi: I64, limit: I64)
    requires hi < limit && AtLeast(F64Cmp(x, IntToF64(limit)))
    ensures AtLeast(F64Cmp(x, IntToF64(hi + 1)))
  {
    IntIsNumber(hi + 1);
    IntToF64Monotone(hi + 1, limit);
  }

  lemma FloatBelowInts(x: F64, lo: I64, limit: I64)
    requires limit < lo && AtMost(F64Cmp(x, IntToF64(limit)))
    ensures AtMost(F64Cmp(x, IntToF64(lo - 1)))
  {
    IntIsNumber(lo - 1);
    IntToF64Monotone(limit, lo - 1);
  }

  lemma GreaterIsAbove(max: Value, v: Value, q: Value)
    requires ValueCmp(max, q) == Less && AtLeast(PartialCmp(v, q)) && ValueCmp(v, max) != Greater
    ensures Above(max, v)
  {
    match max
    case Int(hi) => if v.Float? { FloatAboveInts(v.f, hi, q.i); }
    case Text(s) => LtAfterLe(v.s, s, q.s);
    case _ =>
  }

  lemma LtAfterLe(t: seq<Byte>, s: seq<Byte>, q: seq<Byte>)
    requires Cmp(t, s) != Greater && Cmp(s, q) == Less
    ensures Cmp(t, q) == Less
  {
    CmpEqual(t, s);
    if t != s { LtTransitive(t, s, q); }
  }

  lemma LessIsBelow(min: Value, v: Value, q: Value)
    requires ValueCmp(min, q) == Greater && AtMost(PartialCmp(v, q)) && ValueCmp(v, min) != Less
    ensures Below(min, v)
  {
    match min
    case Int(lo) => if v.Float? { FloatBelowInts(v.f, lo, q.i); }
    case Text(s) =>
      CmpFlip(q.s, s);
      CmpFlip(s, v.s);
      CmpFlip(q.s, v.s);
      LtTransitive(q.s, s, v.s);
    case _ =>
  }

  /** A predicate a record satisfies rejects a block only if the value it resolves to is outside the zone. */
  lemma RejectedOnlyOutside(zones: BlockZones, fields: Fields, q: Predicate)
    requires Holds(fields, q) && Rejects(zones, q)
    ensures var v := ResolvePath(fields, q.field); v.Some? && Outside(zones[q.field], v.value)
  {
    var z, v := zones[q.field], ResolvePath(fields, q.field).value;
    if !Exceeds(z, v) {
      if q.op == OpEq {
        EqualCompare(v, q.value, z.min.value);
        EqualCompare(v, q.value, z.max.value);
      } else if q.op == OpGt || q.op == OpGte {
        GreaterIsAbove(z.max.value, v, q.value);
      } else {
        LessIsBelow(z.min.value, v, q.value);
      }
    }
  }

  lemma {:induction false} UntrackedIsEmpty(tracked: seq<string>, block: seq<Entry>, field: string)
    requires !Tracks(tracked, field)
    ensures MinOf(tracked, block, field) == None && !HasNull(tracked, block, field)
  {
    if block != [] { UntrackedIsEmpty(tracked, block[..|block| - 1], field); }
  }

  lemma ZoneIsTracked(zones: BlockZones, tracked: seq<string>, block: seq<Entry>, field: string)
    requires ZonesOf(zones, tracked, block) && field in zones
    ensures Tracks(tracked, field)
  {
    assert IsZoneOf(zones, tracked, block, field);
    if !Tracks(tracked, field) { UntrackedIsEmpty(tracked, block, field); }
  }

  // ─── Such a value makes a wrong skip ───────────────────────────────────────

  /** A predicate that the value satisfies and that rules its block out. */
  function Trap(field: string, z: FieldZone, v: Value): Predicate
    requires Outside(z, v)
  {
    if z.max.Some? && ValueCmp(v, z.max.value) == Greater then Predicate(field, OpGte, v)
    else if z.min.Some? && ValueCmp(v, z.min.value) == Less then Predicate(field, OpLte, v)
    else if z.max.Some? && Above(z.max.value, v) then
      Predicate(field, OpGte, if v.Float? then Int(z.max.value.i + 1) else Float(IntToF64(v.i)))
    else
      Predicate(field, OpLte, if v.Float? then Int(z.min.value.i - 1) else Float(IntToF64(v.i)))
  }

  lemma CompareBothWays(a: Value, b: Value)
    ensures ValueCmp(b, a) == ValueCmp(a, b).Reverse()
    ensures ValueCmp(a, b) != Equal ==> PartialCmp(a, a) == Some(Ordering.Equal)
  {
    if a.Text? && b.Text? {
      CmpFlip(a.s, b.s);
      CmpEqual(a.s, a.s);
    }
  }

  lemma TrapCatches(zones: BlockZones, fields: Fields, field: string)
    requires field in zones && ResolvePath(fields, field).Some?
             && Outside(zones[field], ResolvePath(fields, field).value)
    ensures var q := Trap(field, zones[field], ResolvePath(fields, field).value); Holds(fields, q) && Rejects(zones, q)
  {
    var v, z := ResolvePath(fields, field).value, zones[field];
    if z.max.Some? { CompareBothWays(v, z.max.value); }
    if z.min.Some? { CompareBothWays(v, z.min.value); }
    if v.Int? { IntIsNumber(v.i); }
  }

  // ─── Exactly the safe blocks ───────────────────────────────────────────────

  /** No value a record of the block resolves a zoned field to is outside that field's zone. */
  predicate NothingOutside(zones: BlockZones, block: seq<Entry>) {
    forall i, f | 0 <= i < |block| && f in zones ::
      var v := ResolvePath(block[i].record.fields, f); v.Some? ==> !Outside(zones[f], v.value)
  }

  /** No filter ever skips a block that holds a matching record. */
  ghost predicate NeverSkipsMatch(zones: BlockZones, block: seq<Entry>) {
    forall ps: seq<Predicate>, i | 0 <= i < |block| && HoldsAll(block[i].record.fields, ps) :: Passes(zones, ps)
  }

  lemma SafeBlock(zones: BlockZones, block: seq<Entry>)
    requires NothingOutside(zones, block)
    ensures NeverSkipsMatch(zones, block)
  {
    forall ps: seq<Predicate>, i | 0 <= i < |block| && HoldsAll(block[i].record.fields, ps) ensures Passes(zones, ps) {
      forall k | 0 <= k < |ps| ensures !Rejects(zones, ps[k]) {
        if Rejects(zones, ps[k]) { RejectedOnlyOutside(zones, block[i].record.fields, ps[k]); }
      }
    }
  }

  lemma UnsafeBlock(zones: BlockZones, block: seq<Entry>, i: nat, f: string)
    requires i < |block| && f in zones
    requires var v := ResolvePath(block[i].record.fields, f); v.Some? && Outside(zones[f], v.value)
    ensures !NeverSkipsMatch(zones, block)
  {
    var fields := block[i].record.fields;
    TrapCatches(zones, fields, f);
    var ps := [Trap(f, zones[f], ResolvePath(fields, f).value)];
    assert HoldsAll(fields, ps);
    assert !Passes(zones, ps) by { assert Rejects(zones, ps[0]); }
  }

  /**
   For every block and every zone map, skipping is safe for every filter exactly
   when no record resolves a zoned field to a value outside its zone.
   */
  lemma NeverSkipsMatchIff(zones: BlockZones, block: seq<Entry>)
    ensures NeverSkipsMatch(zones, block) <==> NothingOutside(zones, block)
  {
    if NothingOutside(zones, block) {
      SafeBlock(zones, block);
    } else {
      var i, f :| 0 <= i < |block| && f in zones
                  && var v := ResolvePath(block[i].record.fields, f); v.Some? && Outside(zones[f], v.value);
      UnsafeBlock(zones, block, i, f);
    }
  }

  /** In the zones the builder makes, a decoded record's plain field can only stray into the other number type. */
  lemma DecodedOnlyStrays(zones: BlockZones, tracked: seq<string>, block: seq<Entry>, i: nat, f: string)
    requires ZonesOf(zones, tracked, block) && i < |block| && block[i].decodes && f in zones && '.' !in f
    ensures var v := ResolvePath(block[i].record.fields, f);
            v == Lookup(block[i].record.fields, f)
            && (v.Some? ==> (Outside(zones[f], v.value) <==> Strays(zones[f], v.value)))
  {
    assert IsZoneOf(zones, tracked, block, f);
    ZoneIsTracked(zones, tracked, block, f);
    var v := Lookup(block[i].record.fields, f);
    if v.Some? && v.value != Null { ValuesInZone(tracked, block, f, i); }
  }

  // ─── Blocks that do not mix ────────────────────────────────────────────────

  /** No field holds an Int in one record and a Float in another. */
  predicate Unmixed(block: seq<Entry>) {
    forall i, j, f |
      0 <= i < |block| && 0 <= j < |block| && f in block[i].record.fields && f in block[j].record.fields ::
      !(block[i].record.fields[f].Int? && block[j].record.fields[f].Float?)
  }

  lemma {:induction false} BoundsAreSeen(tracked: seq<string>, block: seq<Entry>, field: string)
    ensures var min, max := MinOf(tracked, block, field), MaxOf(tracked, block, field);
            && (min.Some? ==> exists i | 0 <= i < |block| :: Seen(tracked, block[i], field) == min)
            && (max.Some? ==> exists i | 0 <= i < |block| :: Seen(tracked, block[i], field) == max)
  {
    if block != [] {
      var front := block[..|block| - 1];
      BoundsAreSeen(tracked, front, field);
      assert forall i | 0 <= i < |front| :: front[i] == block[i];
      assert Seen(tracked, block[|block| - 1], field) == Seen(tracked, block[|front|], field);
    }
  }

  /** Decoded blocks that keep the two number types apart are never skipped by a filter on plain or unzoned names. */
  lemma UnmixedBlocksAreSafe(zones: BlockZones, tracked: seq<string>, block: seq<Entry>, ps: seq<Predicate>, i: nat)
    requires ZonesOf(zones, tracked, block) && AllDecode(block) && Unmixed(block)
    requires i < |block| && HoldsAll(block[i].record.fields, ps)
    requires forall k | 0 <= k < |ps| :: '.' !in ps[k].field || ps[k].field !in zones
    ensures Passes(zones, ps)
  {
    forall k | 0 <= k < |ps| ensures !Rejects(zones, ps[k]) {
      if Rejects(zones, ps[k]) {
        RejectedOnlyOutside(zones, block[i].record.fields, ps[k]);
        DecodedOnlyStrays(zones, tracked, block, i, ps[k].field);
        UnmixedNeverStrays(zones, tracked, block, i, ps[k].field);
      }
    }
  }

  lemma UnmixedNeverStrays(zones: BlockZones, tracked: seq<string>, block: seq<Entry>, i: nat, f: string)
    requires ZonesOf(zones, tracked, block) && Unmixed(block) && i < |block| && f in zones
             && f in block[i].record.fields
    ensures !Strays(zones[f], block[i].record.fields[f])
  {
    assert IsZoneOf(zones, tracked, block, f);
    BoundsAreSeen(tracked, block, f);
  }

  // ─── Why the conditions are there ──────────────────────────────────────────

  function OneField(v: Value): Record {
    Record(1, "lobe", map["x" := v], 0, 0)
  }

  /** A block with Int 5 and the double 10.0 is skipped for `x > 7`. */
  lemma MixedBlockLosesMatch()
    ensures var q := Predicate("x", OpGt, Int(7));
            Rejects(map["x" := FieldZone(Some(Int(5)), Some(Int(5)), false)], q)
            && Holds(OneField(Float(0x4024_0000_0000_0000)).fields, q)
    ensures var block := [Entry(OneField(Int(5)), true), Entry(OneField(Float(0x4024_0000_0000_0000)), true)];
            MinOf([], block, "x") == Some(Int(5)) == MaxOf([], block, "x")
  {
    SevenAsFloat();
    MixedBlockZone();
  }

  lemma MixedBlockZone()
    ensures var block := [Entry(OneField(Int(5)), true), Entry(OneField(Float(0x4024_0000_0000_0000)), true)];
            MinOf([], block, "x") == Some(Int(5)) == MaxOf([], block, "x")
  {
    var a, b := Entry(OneField(Int(5)), true), Entry(OneField(Float(0x4024_0000_0000_0000)), true);
    FoldStep([], [], a, "x");
    FoldStep([], [a], b, "x");
    assert [] + [a] == [a] && [a] + [b] == [a, b];
  }

  lemma SevenAsFloat()
    ensures IntToF64(7) == 0x401C_0000_0000_0000
  {
    assert Log2(7) == 2;
    Pow2Values();
    Pow2Add(50, 2);
  }

  /** An entry that does not decode is missing from the zones: a block with it is skipped although it matches. */
  lemma UndecodedEntryIsLost()
    ensures var a, b := Entry(OneField(Int(1)), true), Entry(OneField(Int(9)), false);
            var q := Predicate("x", OpGt, Int(5));
            && MaxOf([], [a, b], "x") == Some(Int(1)) && Holds(b.record.fields, q)
            && Rejects(map["x" := FieldZone(Some(Int(1)), MaxOf([], [a, b], "x"), false)], q)
  {
    var a, b := Entry(OneField(Int(1)), true), Entry(OneField(Int(9)), false);
    FoldStep([], [], a, "x");
    FoldStep([], [a], b, "x");
    assert [] + [a] == [a] && [a] + [b] == [a, b];
  }

  /** A field literally named `a.b` is zoned under the name by which a filter reaches into `a`. */
  lemma DottedNameLosesMatch()
    ensures var odd, nested: Record := Record(1, "lobe", map["a.b" := Int(1)], 0, 0),
                                       Record(2, "lobe", map["a" := Map(map["b" := Int(9)])], 0, 0);
            var block, q := [Entry(odd, true), Entry(nested, true)], Predicate("a.b", OpGt, Int(5));
            && MaxOf([], block, "a.b") == Some(Int(1)) && Holds(nested.fields, q)
            && Rejects(map["a.b" := FieldZone(Some(Int(1)), MaxOf([], block, "a.b"), false)], q)
  {
    var a, b := Entry(Record(1, "lobe", map["a.b" := Int(1)], 0, 0), true),
                Entry(Record(2, "lobe", map["a" := Map(map["b" := Int(9)])], 0, 0), true);
    FoldStep([], [], a, "a.b");
    FoldStep([], [a], b, "a.b");
    assert [] + [a] == [a] && [a] + [b] == [a, b];
    SplitDotted();
    assert Walk(b.record.fields["a"], ["b"]) == Some(Int(9));
  }
}
