/**
 Gravity placement and the equality fast path: the bucket a record is written to
 and the bucket a query pins are computed by one specification.
 */
module Gravity {
  import opened Bytes
  import opened FieldDictionary
  import opened Filters
  import opened Sequences
  import opened SpatialKeys
  import opened Values

  datatype Transform = Lower | Trim

  datatype GravitySpec =
    | Raw(field: string)
    | Normalized(field: string, transform: Transform)
    | Composite(fields: seq<string>)

  /** The text primitives placement rests on: rendering, case folding and trimming, and the 48-bit hash. */
  datatype Primitives = Primitives(render: Value -> seq<Byte>, apply: (Transform, seq<Byte>) -> seq<Byte>,
                                   hash: seq<Byte> -> nat)

  // ─── The hash ──────────────────────────────────────────────────────────────

  function AnchorString(p: Primitives, v: Value): seq<Byte> {
    if v.Text? then v.s else p.render(v)
  }

  /** Values joined by a zero byte, except behind an empty start. */
  function Combined(p: Primitives, vs: seq<Value>): seq<Byte> {
    if vs == [] then []
    else
      var front := Combined(p, vs[..|vs| - 1]);
      front + (if front != [] then [0] else []) + AnchorString(p, vs[|vs| - 1])
  }

  method ComputeGravityHash(p: Primitives, vs: seq<Value>) returns (h: nat)
    ensures h == p.hash(Combined(p, vs))
  {
    var combined: seq<Byte> := [];
    for i := 0 to |vs|
      invariant combined == Combined(p, vs[..i])
    {
      assert vs[..i + 1][..i] == vs[..i];
      if combined != [] {
        combined := combined + [0];
      }
      combined := combined + AnchorString(p, vs[i]);
    }
    assert vs[..|vs|] == vs;
    h := p.hash(combined);
  }

  function FieldsOf(spec: GravitySpec): seq<string> {
    match spec
    case Raw(f) => [f]
    case Normalized(f, _) => [f]
    case Composite(fs) => fs
  }

  /** The values of the named fields, all of them or none. */
  function Gather(fields: Fields, names: seq<string>): Option<seq<Value>> {
    if names == [] then Some([])
    else match (Gather(fields, names[..|names| - 1]), Lookup(fields, names[|names| - 1]))
      case (Some(vs), Some(v)) => Some(vs + [v])
      case _ => None
  }

  function HashValues(p: Primitives, spec: GravitySpec, fields: Fields): Option<seq<Value>> {
    match spec
    case Raw(f) => Gather(fields, [f])
    case Normalized(f, t) =>
      (match Lookup(fields, f)
       case Some(v) => Some([Text(p.apply(t, AnchorString(p, v)))])
       case None => None)
    case Composite(fs) => Gather(fields, fs)
  }

  function ComputeHash(p: Primitives, spec: GravitySpec, fields: Fields): Option<nat> {
    match HashValues(p, spec, fields)
    case Some(vs) => Some(p.hash(Combined(p, vs)))
    case None => None
  }

  // ─── Pinning a bucket from a WHERE ─────────────────────────────────────────

  datatype Found = Absent | Exactly(v: Value) | Disqualified

  function Meet(found: Found, q: Predicate, field: string): Found {
    if q.field != field || found.Disqualified? then found
    else if q.op != OpEq || found.Exactly? then Disqualified
    else Exactly(q.value)
  }

  /** What the predicates say about one gravity field. */
  function ScanFor(ps: seq<Predicate>, field: string): Found {
    if ps == [] then Absent else Meet(ScanFor(ps[..|ps| - 1], field), ps[|ps| - 1], field)
  }

  function PinnedValues(ps: seq<Predicate>, names: seq<string>): Option<Fields> {
    if names == [] then Some(map[])
    else match (PinnedValues(ps, names[..|names| - 1]), ScanFor(ps, names[|names| - 1]))
      case (Some(vals), Exactly(v)) => Some(vals[names[|names| - 1] := v])
      case _ => None
  }

  function PinnedHash(p: Primitives, spec: GravitySpec, ps: seq<Predicate>): Option<nat> {
    match PinnedValues(ps, FieldsOf(spec))
    case Some(vals) => ComputeHash(p, spec, vals)
    case None => None
  }

  lemma {:induction false} Disqualifies(ps: seq<Predicate>, n: nat, field: string)
    requires n <= |ps| && ScanFor(ps[..n], field).Disqualified?
    ensures ScanFor(ps, field).Disqualified?
    decreases |ps| - n
  {
    if n < |ps| {
      assert ps[..n + 1][..n] == ps[..n];
      Disqualifies(ps, n + 1, field);
    } else {
      assert ps[..n] == ps;
    }
  }

  lemma {:induction false} MissingPin(ps: seq<Predicate>, names: seq<string>, n: nat)
    requires n <= |names| && PinnedValues(ps, names[..n]) == None
    ensures PinnedValues(ps, names) == None
    decreases |names| - n
  {
    if n < |names| {
      assert names[..n + 1][..n] == names[..n];
      MissingPin(ps, names, n + 1);
    } else {
      assert names[..n] == names;
    }
  }

  /** The inner loop: the one `Eq` on a gravity field, or none. */
  method FindEq(ps: seq<Predicate>, field: string) returns (found: Option<Value>)
    ensures found == match ScanFor(ps, field) case Exactly(v) => Some(v) case _ => None
  {
    found := None;
    for i := 0 to |ps|
      invariant ScanFor(ps[..i], field) == if found.Some? then Exactly(found.value) else Absent
    {
      assert ps[..i + 1][..i] == ps[..i];
      if ps[i].field == field {
        if ps[i].op != OpEq || found.Some? {
          Disqualifies(ps, i + 1, field);
          return None;
        }
        found := Some(ps[i].value);
      }
    }
    assert ps[..|ps|] == ps;
  }

  method PinnedGravityHash(p: Primitives, spec: GravitySpec, ps: seq<Predicate>) returns (h: Option<nat>)
    ensures h == PinnedHash(p, spec, ps)
  {
    var names := FieldsOf(spec);
    var vals: Fields := map[];
    for i := 0 to |names|
      invariant PinnedValues(ps, names[..i]) == Some(vals)
    {
      assert names[..i + 1][..i] == names[..i];
      var found := FindEq(ps, names[i]);
      if found == None {
        MissingPin(ps, names, i + 1);
        return None;
      }
      vals := vals[names[i] := found.value];
    }
    assert names[..|names|] == names;
    h := ComputeHash(p, spec, vals);
  }

  // ─── The query side and the write side agree ───────────────────────────────

  /** The literal a scan finds is compared with the record's own value. */
  lemma {:induction false} FoundHolds(fields: Fields, ps: seq<Predicate>, field: string)
    requires HoldsAll(fields, ps) && '.' !in field && ScanFor(ps, field).Exactly?
    ensures Lookup(fields, field).Some? && Eq(Lookup(fields, field).value, ScanFor(ps, field).v)
  {
    var front, last := ps[..|ps| - 1], ps[|ps| - 1];
    assert Holds(fields, last);
    if last.field == field {
      assert ResolvePath(fields, field) == Lookup(fields, field);
    } else {
      assert forall k | 0 <= k < |front| :: front[k] == ps[k];
      FoundHolds(fields, front, field);
    }
  }

  /** No literal pinned by the query contains a float zero. */
  predicate PinsWithoutZeros(ps: seq<Predicate>, names: seq<string>) {
    forall n | n in names :: ScanFor(ps, n).Exactly? ==> NoZeroFloat(ScanFor(ps, n).v)
  }

  lemma {:induction false} PinnedAgree(fields: Fields, ps: seq<Predicate>, names: seq<string>)
    requires HoldsAll(fields, ps) && PinnedValues(ps, names).Some? && PinsWithoutZeros(ps, names)
    requires forall n | n in names :: '.' !in n
    ensures var vals := PinnedValues(ps, names).value;
            forall n | n in names :: Lookup(fields, n).Some? && Lookup(fields, n) == Lookup(vals, n)
  {
    if names != [] {
      var front, last := names[..|names| - 1], names[|names| - 1];
      assert names == front + [last];
      PinnedAgree(fields, ps, front);
      FoundHolds(fields, ps, last);
      EqWithoutZeros(Lookup(fields, last).value, ScanFor(ps, last).v);
    }
  }

  predicate SameOn(a: Fields, b: Fields, names: seq<string>) {
    forall i | 0 <= i < |names| :: Lookup(a, names[i]) == Lookup(b, names[i])
  }

  lemma {:induction false} GatherAgrees(a: Fields, b: Fields, names: seq<string>)
    requires SameOn(a, b, names)
    ensures Gather(a, names) == Gather(b, names)
  {
    if names != [] {
      var front := names[..|names| - 1];
      assert forall i | 0 <= i < |front| :: front[i] == names[i];
      GatherAgrees(a, b, front);
    }
  }

  /** A pinned bucket is the bucket of every record the filters match. */
  lemma PinnedIsPlaced(p: Primitives, spec: GravitySpec, ps: seq<Predicate>, fields: Fields)
    requires PinnedHash(p, spec, ps).Some? && HoldsAll(fields, ps)
    requires PinsWithoutZeros(ps, FieldsOf(spec)) && forall n | n in FieldsOf(spec) :: '.' !in n
    ensures ComputeHash(p, spec, fields) == PinnedHash(p, spec, ps)
  {
    var names := FieldsOf(spec);
    var vals := PinnedValues(ps, names).value;
    PinnedAgree(fields, ps, names);
    match spec
    case Raw(f) => GatherAgrees(fields, vals, [f]);
    case Normalized(f, _) => assert f in names;
    case Composite(fs) => GatherAgrees(fields, vals, fs);
  }

  // ─── The bounded scan ──────────────────────────────────────────────────────

  type Entry = (SpatialKey, Record)

  /** A record placed by the specification: its key carries the hash of its fields, when they have one. */
  predicate Placed(p: Primitives, spec: GravitySpec, e: Entry) {
    var h := ComputeHash(p, spec, e.1.fields);
    Constructed(e.0) && (h.Some? ==> e.0.gravity == h.value % U48)
  }

  predicate InBucket(k: SpatialKey, lobe: U16, h: nat) {
    Between(KeyBytes(k), Padded(GravityPrefix(lobe, h), 0), Padded(GravityPrefix(lobe, h), 0xFF))
  }

  function BucketScan(entries: seq<Entry>, lobe: U16, h: nat, e: Option<FilterExpr>): seq<Entry> {
    Keep(entries, (x: Entry) => InBucket(x.0, lobe, h) && MatchesOpt(x.1.fields, e))
  }

  function LobeScan(entries: seq<Entry>, lobe: U16, e: Option<FilterExpr>): seq<Entry> {
    Keep(entries, (x: Entry) => x.0.lobe == lobe && MatchesOpt(x.1.fields, e))
  }
}
