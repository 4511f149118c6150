/**
 Zone maps: per-block minimum and maximum of each field, built while a block is
 written and consulted to skip blocks that cannot match.
 */
module ZoneMaps {
  import opened Bytes
  import opened Filters
  import opened Values

  datatype FieldZone = FieldZone(min: Option<Value>, max: Option<Value>, hasNull: bool)

  /** The zones by field name. */
  type BlockZones = map<string, FieldZone>

  /** An entry of a block: the record it holds, and whether it decodes without a field dictionary. */
  datatype Entry = Entry(record: Record, decodes: bool)

  // ─── The builder ───────────────────────────────────────────────────────────

  /** `value_cmp`: within a type; everything incomparable counts as equal. */
  function ValueCmp(a: Value, b: Value): Ordering {
    match (a, b)
    case (Int(x), Int(y)) => IntCmp(x, y)
    case (Float(x), Float(y)) => if F64Cmp(x, y).Some? then F64Cmp(x, y).value else Ordering.Equal
    case (Text(x), Text(y)) => Cmp(x, y)
    case (Timestamp(x), Timestamp(y)) => IntCmp(x, y)
    case (Bool(x), Bool(y)) => IntCmp(BoolRank(x), BoolRank(y))
    case _ => Ordering.Equal
  }

  predicate Tracks(tracked: seq<string>, field: string) {
    tracked == [] || field in tracked
  }

  /** The tracked value an entry contributes to a field. */
  function Seen(tracked: seq<string>, e: Entry, field: string): Option<Value> {
    if e.decodes && Tracks(tracked, field) then Lookup(e.record.fields, field) else None
  }

  function Lower(current: Option<Value>, v: Option<Value>): Option<Value> {
    if v == None || v.value == Null then current
    else if current == None || ValueCmp(v.value, current.value) == Less then v else current
  }

  function Higher(current: Option<Value>, v: Option<Value>): Option<Value> {
    if v == None || v.value == Null then current
    else if current == None || ValueCmp(v.value, current.value) == Greater then v else current
  }

  function MinOf(tracked: seq<string>, block: seq<Entry>, field: string): Option<Value> {
    if block == [] then None
    else Lower(MinOf(tracked, block[..|block| - 1], field), Seen(tracked, block[|block| - 1], field))
  }

  function MaxOf(tracked: seq<string>, block: seq<Entry>, field: string): Option<Value> {
    if block == [] then None
    else Higher(MaxOf(tracked, block[..|block| - 1], field), Seen(tracked, block[|block| - 1], field))
  }

  predicate HasNull(tracked: seq<string>, block: seq<Entry>, field: string) {
    exists i | 0 <= i < |block| :: Seen(tracked, block[i], field) == Some(Null)
  }

  /** What the zone map of a block says about a field, if anything. */
  predicate IsZoneOf(zones: BlockZones, tracked: seq<string>, block: seq<Entry>, field: string) {
    var min, max, nulls := MinOf(tracked, block, field), MaxOf(tracked, block, field), HasNull(tracked, block, field);
    if min == None && !nulls then field !in zones
    else field in zones && zones[field] == FieldZone(min, max, nulls)
  }

  lemma FoldStep(tracked: seq<string>, before: seq<Entry>, e: Entry, field: string)
    ensures MinOf(tracked, before + [e], field) == Lower(MinOf(tracked, before, field), Seen(tracked, e, field))
    ensures MaxOf(tracked, before + [e], field) == Higher(MaxOf(tracked, before, field), Seen(tracked, e, field))
    ensures HasNull(tracked, before + [e], field)
            <==> HasNull(tracked, before, field) || Seen(tracked, e, field) == Some(Null)
  {
    var all := before + [e];
    assert all[..|all| - 1] == before && all[|all| - 1] == e;
    assert forall i | 0 <= i < |before| :: all[i] == before[i];
    if HasNull(tracked, before, field) {
      var i :| 0 <= i < |before| && Seen(tracked, before[i], field) == Some(Null);
      assert Seen(tracked, all[i], field) == Some(Null);
    }
    if Seen(tracked, e, field) == Some(Null) { assert Seen(tracked, all[|before|], field) == Some(Null); }
  }

  class Builder {
    const tracked: seq<string>
    var mins: map<string, Value>
    var maxs: map<string, Value>
    var nulls: set<string>

    constructor (tracked: seq<string>)
      ensures this.tracked == tracked && mins == map[] && maxs == map[] && nulls == {}
    {
      this.tracked := tracked;
      mins, maxs, nulls := map[], map[], {};
    }

    /** The maps hold the fold over the entries seen so far, for this field. */
    predicate Holds(block: seq<Entry>, field: string)
      reads this
    {
      && Lookup(mins, field) == MinOf(tracked, block, field)
      && Lookup(maxs, field) == MaxOf(tracked, block, field)
      && (field in nulls <==> HasNull(tracked, block, field))
    }

    /** One field of one record. */
    method Add(field: string, v: Value)
      modifies this
      ensures forall f | f != field ::
                Lookup(mins, f) == old(Lookup(mins, f)) && Lookup(maxs, f) == old(Lookup(maxs, f))
                && (f in nulls <==> f in old(nulls))
      ensures var w := if Tracks(tracked, field) then Some(v) else None;
              && Lookup(mins, field) == Lower(old(Lookup(mins, field)), w)
              && Lookup(maxs, field) == Higher(old(Lookup(maxs, field)), w)
              && (field in nulls <==> field in old(nulls) || w == Some(Null))
    {
      if !Tracks(tracked, field) {
        return;
      }
      if v == Null {
        nulls := nulls + {field};
        return;
      }
      if field !in mins || ValueCmp(v, mins[field]) == Less {
        mins := mins[field := v];
      }
      if field !in maxs || ValueCmp(v, maxs[field]) == Greater {
        maxs := maxs[field := v];
      }
    }

    /** All fields of one decoded record. */
    method AddRecord(ghost before: seq<Entry>, e: Entry)
      requires e.decodes && forall f :: Holds(before, f)
      modifies this
      ensures forall f :: Holds(before + [e], f)
    {
      var fields := e.record.fields;
      var rest := fields.Keys;
      while rest != {}
        invariant rest <= fields.Keys
        invariant forall f | f in fields && f !in rest :: Holds(before + [e], f)
        invariant forall f | f !in fields || f in rest :: Holds(before, f)
        decreases |rest|
      {
        var field :| field in rest;
        Add(field, fields[field]);
        FoldStep(tracked, before, e, field);
        rest := rest - {field};
      }
      forall f ensures Holds(before + [e], f) {
        if f !in fields { FoldStep(tracked, before, e, f); }
      }
    }

    /** An entry that does not decode leaves the fold as it is. */
    lemma Skipped(before: seq<Entry>, e: Entry)
      requires !e.decodes && forall f :: Holds(before, f)
      ensures forall f :: Holds(before + [e], f)
    {
      forall f ensures Holds(before + [e], f) {
        assert Holds(before, f);
        FoldStep(tracked, before, e, f);
      }
    }

    method BuildBlockZoneMap(block: seq<Entry>) returns (zones: BlockZones)
      requires mins == map[] && maxs == map[] && nulls == {}
      modifies this
      ensures forall f :: IsZoneOf(zones, tracked, block, f)
    {
      for i := 0 to |block|
        invariant forall f :: Holds(block[..i], f)
      {
        assert block[..i + 1] == block[..i] + [block[i]];
        if !block[i].decodes {
          Skipped(block[..i], block[i]);
          continue;
        }
        AddRecord(block[..i], block[i]);
      }
      assert block[..|block|] == block;
      zones := map f | f in mins.Keys + nulls :: FieldZone(Lookup(mins, f), Lookup(maxs, f), f in nulls);
      forall f ensures IsZoneOf(zones, tracked, block, f) {
        assert Holds(block, f);
      }
    }
  }

  // ─── The evaluator ─────────────────────────────────────────────────────────

  /** The predicate rules the block out. */
  predicate Rejects(zones: BlockZones, q: Predicate) {
    && q.field in zones
    && var z := zones[q.field];
       match q.op
       case OpEq =>
         z.min.Some? && z.max.Some?
         && (ValueCmp(q.value, z.min.value) == Less || ValueCmp(q.value, z.max.value) == Greater)
       case OpGt => z.max.Some? && ValueCmp(z.max.value, q.value) == Less
       case OpGte => z.max.Some? && ValueCmp(z.max.value, q.value) == Less
       case OpLt => z.min.Some? && ValueCmp(z.min.value, q.value) == Greater
       case OpLte => z.min.Some? && ValueCmp(z.min.value, q.value) == Greater
       case _ => false
  }

  method MightMatch(zones: BlockZones, ps: seq<Predicate>) returns (maybe: bool)
    ensures maybe <==> forall i | 0 <= i < |ps| :: !Rejects(zones, ps[i])
  {
    for i := 0 to |ps|
      invariant forall k | 0 <= k < i :: !Rejects(zones, ps[k])
    {
      var q := ps[i];
      if q.field !in zones {
        continue;
      }
      var z := zones[q.field];
      if q.op == OpEq {
        if z.min.Some? && z.max.Some?
           && (ValueCmp(q.value, z.min.value) == Less || ValueCmp(q.value, z.max.value) == Greater) {
          return false;
        }
      } else if q.op == OpGt || q.op == OpGte {
        if z.max.Some? && ValueCmp(z.max.value, q.value) == Less {
          return false;
        }
      } else if q.op == OpLt || q.op == OpLte {
        if z.min.Some? && ValueCmp(z.min.value, q.value) == Greater {
          return false;
        }
      }
    }
    return true;
  }

  // ─── Minima and maxima bound every value ───────────────────────────────────

  lemma LowerBounds(current: Option<Value>, v: Value, prior: Value)
    requires current.Some? && v != Null && ValueCmp(prior, current.value) != Less
    ensures var next := Lower(current, Some(v)).value;
            ValueCmp(prior, next) != Less && ValueCmp(v, next) != Less
  {
    TextOrderFacts(v, current.value, prior);
  }

  lemma HigherBounds(current: Option<Value>, v: Value, prior: Value)
    requires current.Some? && v != Null && ValueCmp(prior, current.value) != Greater
    ensures var next := Higher(current, Some(v)).value;
            ValueCmp(prior, next) != Greater && ValueCmp(v, next) != Greater
  {
    TextOrderFacts(prior, current.value, v);
    TextOrderFacts(v, v, v);
  }

  lemma TextOrderFacts(a: Value, b: Value, c: Value)
    ensures a.Text? && b.Text? && c.Text? ==>
              && Cmp(a.s, a.s) == Equal && Cmp(c.s, c.s) == Equal
              && Cmp(c.s, b.s) == Cmp(b.s, c.s).Reverse() && Cmp(c.s, a.s) == Cmp(a.s, c.s).Reverse()
              && Cmp(b.s, a.s) == Cmp(a.s, b.s).Reverse()
              && (Cmp(a.s, b.s) == Less && Cmp(b.s, c.s) != Greater ==> Cmp(a.s, c.s) == Less)
              && (Cmp(a.s, b.s) != Greater && Cmp(b.s, c.s) != Greater ==> Cmp(a.s, c.s) != Greater)
    ensures a.Text? ==> Cmp(a.s, a.s) == Equal
  {
    if a.Text? { CmpEqual(a.s, a.s); }
    if a.Text? && b.Text? && c.Text? {
      CmpEqual(c.s, c.s);
      CmpFlip(b.s, c.s);
      CmpFlip(a.s, c.s);
      CmpFlip(a.s, b.s);
      if Lt(a.s, b.s) && Le(b.s, c.s) { LtTransitive(a.s, b.s, c.s); }
      if Le(a.s, b.s) && Le(b.s, c.s) { LeTransitive(a.s, b.s, c.s); }
    }
  }

  /** Every non-null value of a field lies between the field's minimum and maximum. */
  lemma {:induction false} ValuesInZone(tracked: seq<string>, block: seq<Entry>, field: string, i: nat)
    requires i < |block| && Seen(tracked, block[i], field).Some? && Seen(tracked, block[i], field).value != Null
    ensures var v := Seen(tracked, block[i], field).value;
            var min, max := MinOf(tracked, block, field), MaxOf(tracked, block, field);
            min.Some? && max.Some? && ValueCmp(v, min.value) != Less && ValueCmp(v, max.value) != Greater
  {
    var front, e := block[..|block| - 1], block[|block| - 1];
    var v, w := Seen(tracked, block[i], field).value, Seen(tracked, e, field);
    TextOrderFacts(v, v, v);
    if i < |front| {
      ValuesInZone(tracked, front, field, i);
      if w.Some? && w.value != Null {
        LowerBounds(MinOf(tracked, front, field), w.value, v);
        HigherBounds(MaxOf(tracked, front, field), w.value, v);
      }
    } else if MinOf(tracked, front, field).Some? {
      MinAndMax(tracked, front, field);
      SelfBounds(MinOf(tracked, front, field), MaxOf(tracked, front, field), v);
    } else {
      MinAndMax(tracked, front, field);
    }
  }

  lemma SelfBounds(min: Option<Value>, max: Option<Value>, v: Value)
    requires min.Some? && max.Some? && v != Null
    ensures ValueCmp(v, Lower(min, Some(v)).value) != Less && ValueCmp(v, Higher(max, Some(v)).value) != Greater
  {
    TextOrderFacts(v, v, v);
  }

  lemma {:induction false} MinAndMax(tracked: seq<string>, block: seq<Entry>, field: string)
    ensures MinOf(tracked, block, field).Some? <==> MaxOf(tracked, block, field).Some?
  {
    if block != [] { MinAndMax(tracked, block[..|block| - 1], field); }
  }
}
