/**
 The seek window of a covering ghost: predicates on the ordered field narrow the
 scan to a byte range of sort keys, and the filters are applied again behind it.
 */
module GhostSeek {
  import opened Bytes
  import opened Values
  import opened Filters
  import opened FieldDictionary
  import opened Sequences
  import opened SortKeys

  // ─── Prefix ranges ─────────────────────────────────────────────────────────

  /** Trailing 0xFF bytes are dropped and the last other byte is raised. */
  function Successor(p: seq<Byte>): Option<seq<Byte>> {
    if p == [] then None
    else if p[|p| - 1] < 0xFF then Some(p[|p| - 1 := p[|p| - 1] + 1])
    else Successor(p[..|p| - 1])
  }

  method ByteSuccessor(prefix: seq<Byte>) returns (r: Option<seq<Byte>>)
    ensures r == Successor(prefix)
  {
    var s := prefix;
    while s != []
      invariant Successor(s) == Successor(prefix)
      decreases |s|
    {
      var last := s[|s| - 1];
      if last < 0xFF {
        return Some(s[|s| - 1 := last + 1]);
      }
      s := s[..|s| - 1];
    }
    return None;
  }

  predicate InRange(k: seq<Byte>, start: seq<Byte>, end: Option<seq<Byte>>) {
    Le(start, k) && (end.Some? ==> Lt(k, end.value))
  }

  /** The range from a prefix to its successor holds exactly the keys that carry the prefix. */
  lemma {:induction false} PrefixRange(p: seq<Byte>, k: seq<Byte>)
    ensures p <= k <==> InRange(k, p, Successor(p))
    decreases |p|
  {
    if p == [] {
    } else {
      var q, b := p[..|p| - 1], p[|p| - 1];
      assert p == q + [b];
      if b < 0xFF {
        LastByteRange(q, b, k);
        assert p[|p| - 1 := b + 1] == q + [b + 1];
      } else {
        PrefixRange(q, k);
        FullByteRange(q, k);
      }
    }
  }

  lemma LastByteRange(q: seq<Byte>, b: Byte, k: seq<Byte>)
    requires b < 0xFF
    ensures q + [b] <= k <==> Le(q + [b], k) && Lt(k, q + [b + 1])
  {
    CmpFlip(k, q + [b + 1]);
    if q <= k {
      WithinPrefix(q, k, [b]);
      WithinPrefix(q, k, [b + 1]);
      assert k == q + k[|q|..];
    } else {
      BeyondPrefix(q, k, [b], [b + 1]);
    }
  }

  lemma FullByteRange(q: seq<Byte>, k: seq<Byte>)
    requires q <= k <==> InRange(k, q, Successor(q))
    ensures q + [0xFF] <= k <==> InRange(k, q + [0xFF], Successor(q))
  {
    PrefixLe(q, q + [0xFF]);
    if Le(q + [0xFF], k) { LeTransitive(q, q + [0xFF], k); }
    if q <= k {
      WithinPrefix(q, k, [0xFF]);
      assert k == q + k[|q|..];
    }
  }

  // ─── The window ────────────────────────────────────────────────────────────

  datatype Bounds = Bounds(eq: Option<Value>, lo: Option<Value>, hi: Option<Value>)

  function Tightened(b: Bounds, p: Predicate, field: string): Bounds {
    if p.field != field then b
    else match p.op
      case OpEq => b.(eq := Some(p.value))
      case OpGt => b.(lo := Some(p.value))
      case OpGte => b.(lo := Some(p.value))
      case OpLt => b.(hi := Some(p.value))
      case OpLte => b.(hi := Some(p.value))
      case _ => b
  }

  function BoundsOf(ps: seq<Predicate>, field: string): Bounds {
    if ps == [] then Bounds(None, None, None)
    else Tightened(BoundsOf(ps[..|ps| - 1], field), ps[|ps| - 1], field)
  }

  method CollectBounds(ps: seq<Predicate>, field: string) returns (b: Bounds)
    ensures b == BoundsOf(ps, field)
  {
    b := Bounds(None, None, None);
    for i := 0 to |ps|
      invariant b == BoundsOf(ps[..i], field)
    {
      assert ps[..i + 1][..i] == ps[..i];
      if ps[i].field != field {
        continue;
      }
      match ps[i].op
      case OpEq => b := b.(eq := Some(ps[i].value));
      case OpGt => b := b.(lo := Some(ps[i].value));
      case OpGte => b := b.(lo := Some(ps[i].value));
      case OpLt => b := b.(hi := Some(ps[i].value));
      case OpLte => b := b.(hi := Some(ps[i].value));
      case _ =>
    }
    assert ps[..|ps|] == ps;
  }

  datatype Window = Prefixed(p: seq<Byte>) | Ranged(start: seq<Byte>, end: Option<seq<Byte>>)

  function KeyOf(ghostId: U16, v: Value, inverted: bool): seq<Byte> {
    SortKey(ghostId, Some(v), inverted, [])
  }

  function WindowOf(ghostId: U16, inverted: bool, b: Bounds): Window {
    var all := BigEndian(ghostId, 2);
    var first, last := if inverted then b.hi else b.lo, if inverted then b.lo else b.hi;
    if b.eq.Some? then Prefixed(KeyOf(ghostId, b.eq.value, inverted))
    else if b.lo.Some? || b.hi.Some? then
      Ranged(if first.Some? then KeyOf(ghostId, first.value, inverted) else all,
             if last.Some? then Successor(KeyOf(ghostId, last.value, inverted)) else Successor(all))
    else Prefixed(all)
  }

  predicate InWindow(k: seq<Byte>, w: Window) {
    match w
    case Prefixed(p) => p <= k
    case Ranged(start, end) => InRange(k, start, end)
  }

  // ─── Which keys the window keeps ───────────────────────────────────────────

  lemma KeyParts(ghostId: U16, v: Option<Value>, inverted: bool, t: seq<Byte>)
    ensures SortKey(ghostId, v, inverted, []) <= SortKey(ghostId, v, inverted, t)
    ensures BigEndian(ghostId, 2) <= SortKey(ghostId, v, inverted, t)
  {
    var e := Encoded(v);
    assert e + [] == e;
    assert Complement(e) <= Complement(e + t);
  }

  /** A bound's key is a prefix of exactly the keys of values that tie with it. */
  lemma PrefixIffTie(ghostId: U16, b: Value, v: Option<Value>, inverted: bool, t: seq<Byte>)
    ensures KeyOf(ghostId, b, inverted) <= SortKey(ghostId, v, inverted, t) <==> SortCmp(v, Some(b)) == Equal
  {
    var p, k := KeyOf(ghostId, b, inverted), SortKey(ghostId, v, inverted, t);
    if SortCmp(v, Some(b)) == Equal {
      TiesShareEncoding(v, Some(b));
      KeyParts(ghostId, v, inverted, t);
    } else {
      NotAPrefix(ghostId, Some(b), v, inverted, t);
    }
  }

  lemma NotAPrefix(ghostId: U16, b: Option<Value>, v: Option<Value>, inverted: bool, t: seq<Byte>)
    requires SortCmp(v, b) != Equal
    ensures !(SortKey(ghostId, b, inverted, []) <= SortKey(ghostId, v, inverted, t))
  {
    var x, y, g := Encoded(b) + [], Encoded(v) + t, BigEndian(ghostId, 2);
    ValueOrder(v, b);
    PartsFlip(Encoded(v), Encoded(b));
    PartsDecides(Encoded(b), Encoded(v), [], t);
    PartsReverses(x, y);
    var p, k := if inverted then Complement(x) else x, if inverted then Complement(y) else y;
    PartsDecides(p, k, [], []);
    assert (g + p)[2..] == p && (g + k)[2..] == k;
  }

  lemma {:induction false} PartsFlip(a: seq<Byte>, b: seq<Byte>)
    requires Parts(a, b)
    ensures Parts(b, a)
  {
    if a[0] == b[0] { PartsFlip(a[1..], b[1..]); }
  }

  /** At or above a lower bound's key are exactly the keys of values not below the bound. */
  lemma StartIff(ghostId: U16, b: Value, v: Option<Value>, inverted: bool, t: seq<Byte>)
    ensures Le(KeyOf(ghostId, b, inverted), SortKey(ghostId, v, inverted, t))
            <==> Directed(SortCmp(v, Some(b)), inverted) != Less
  {
    var p, k := KeyOf(ghostId, b, inverted), SortKey(ghostId, v, inverted, t);
    if SortCmp(v, Some(b)) == Equal {
      PrefixIffTie(ghostId, b, v, inverted, t);
      PrefixLe(p, k);
    } else {
      SortKeyOrder(ghostId, v, Some(b), inverted, t, []);
      CmpFlip(k, p);
    }
  }

  /** Below an upper bound's successor are exactly the keys of values not above the bound. */
  lemma EndIff(ghostId: U16, b: Value, v: Option<Value>, inverted: bool, t: seq<Byte>)
    ensures var end := Successor(KeyOf(ghostId, b, inverted));
            (end.Some? ==> Lt(SortKey(ghostId, v, inverted, t), end.value))
            <==> Directed(SortCmp(v, Some(b)), inverted) != Greater
  {
    var p, k := KeyOf(ghostId, b, inverted), SortKey(ghostId, v, inverted, t);
    PrefixIffTie(ghostId, b, v, inverted, t);
    PrefixRange(p, k);
    StartIff(ghostId, b, v, inverted, t);
    if SortCmp(v, Some(b)) != Equal {
      SortKeyOrder(ghostId, v, Some(b), inverted, t, []);
      if Lt(k, p) { BelowSuccessor(p, k); }
    }
  }

  lemma BelowSuccessor(p: seq<Byte>, k: seq<Byte>)
    requires Lt(k, p)
    ensures Successor(p).Some? ==> Lt(k, Successor(p).value)
  {
    PrefixRange(p, p);
    if Successor(p).Some? { LtTransitive(k, p, Successor(p).value); }
  }

  lemma GhostExtent(ghostId: U16, v: Option<Value>, inverted: bool, t: seq<Byte>)
    ensures InRange(SortKey(ghostId, v, inverted, t), BigEndian(ghostId, 2), Successor(BigEndian(ghostId, 2)))
  {
    KeyParts(ghostId, v, inverted, t);
    PrefixRange(BigEndian(ghostId, 2), SortKey(ghostId, v, inverted, t));
  }

  /** What the window asks of a value, in sort order. */
  predicate Kept(v: Option<Value>, b: Bounds) {
    if b.eq.Some? then SortCmp(v, b.eq) == Equal
    else (b.lo.Some? ==> SortCmp(v, b.lo) != Less) && (b.hi.Some? ==> SortCmp(v, b.hi) != Greater)
  }

  /** The window holds exactly the keys of the values between the bounds, ascending or descending. */
  lemma InWindowIffKept(ghostId: U16, inverted: bool, b: Bounds, v: Option<Value>, t: seq<Byte>)
    ensures InWindow(SortKey(ghostId, v, inverted, t), WindowOf(ghostId, inverted, b)) <==> Kept(v, b)
  {
    GhostExtent(ghostId, v, inverted, t);
    KeyParts(ghostId, v, inverted, t);
    if b.eq.Some? {
      PrefixIffTie(ghostId, b.eq.value, v, inverted, t);
    } else {
      if b.lo.Some? {
        StartIff(ghostId, b.lo.value, v, inverted, t);
        EndIff(ghostId, b.lo.value, v, inverted, t);
      }
      if b.hi.Some? {
        StartIff(ghostId, b.hi.value, v, inverted, t);
        EndIff(ghostId, b.hi.value, v, inverted, t);
      }
    }
  }

  // ─── The window against the filters ────────────────────────────────────────

  const PLUS_ZERO := Float(0)
  const MINUS_ZERO := Float(SIGN64)

  /** Filters equate the two zeros and compare Int with Float; sort keys do neither. */
  predicate LostAbove(v: Value, lo: Value) {
    (v.Int? && lo.Float?) || (v == MINUS_ZERO && lo == PLUS_ZERO)
  }

  predicate LostBelow(v: Value, hi: Value) {
    (v.Float? && hi.Int?) || (v == PLUS_ZERO && hi == MINUS_ZERO)
  }

  predicate LostAt(v: Value, e: Value) {
    (v == MINUS_ZERO && e == PLUS_ZERO) || (v == PLUS_ZERO && e == MINUS_ZERO)
  }

  /** The matching records the window leaves out, told by the literal and the stored value alone. */
  predicate Lost(v: Value, b: Bounds) {
    if b.eq.Some? then LostAt(v, b.eq.value)
    else (b.lo.Some? && LostAbove(v, b.lo.value)) || (b.hi.Some? && LostBelow(v, b.hi.value))
  }

  lemma EqIsKept(v: Value, e: Value)
    requires Eq(v, e)
    ensures SortCmp(Some(v), Some(e)) == Equal <==> !LostAt(v, e)
  {
    if v.Text? { CmpEqual(v.s, e.s); }
  }

  lemma RangeIsKept(v: Value, b: Value)
    ensures PartialCmp(v, b) in {Some(Greater), Some(Ordering.Equal)} ==>
              (SortCmp(Some(v), Some(b)) != Less <==> !LostAbove(v, b))
    ensures PartialCmp(v, b) in {Some(Less), Some(Ordering.Equal)} ==>
              (SortCmp(Some(v), Some(b)) != Greater <==> !LostBelow(v, b))
  {
  }

  /** Every bound comes from a predicate on the field that the record satisfies. */
  lemma {:induction false} BoundsHold(fields: Fields, ps: seq<Predicate>, field: string)
    requires HoldsAll(fields, ps)
    ensures var b, v := BoundsOf(ps, field), ResolvePath(fields, field);
            && (b.eq.Some? ==> v.Some? && Eq(v.value, b.eq.value))
            && (b.lo.Some? ==> v.Some? && PartialCmp(v.value, b.lo.value) in {Some(Greater), Some(Ordering.Equal)})
            && (b.hi.Some? ==> v.Some? && PartialCmp(v.value, b.hi.value) in {Some(Less), Some(Ordering.Equal)})
  {
    if ps != [] {
      var front, last := ps[..|ps| - 1], ps[|ps| - 1];
      assert forall k | 0 <= k < |front| :: front[k] == ps[k];
      BoundsHold(fields, front, field);
      assert Holds(fields, last);
    }
  }

  /** `get_sort_value`: the order field by its name, not as a path; no order field sorts as null. */
  function SortValue(fields: Fields, field: string): Option<Value> {
    if field == "" then None else Lookup(fields, field)
  }

  /**
   A matching record the window leaves out. When its key was made from the value
   the filters see, the literal and that value tell; when it was not (a dotted or
   missing order field), the value the key was made from must lie between the bounds.
   */
  predicate LeftOut(fields: Fields, field: string, b: Bounds) {
    var v := SortValue(fields, field);
    if v == ResolvePath(fields, field) then v.Some? && Lost(v.value, b) else !Kept(v, b)
  }

  /** A matching record is inside the window exactly when it is not such a one. */
  lemma MatchingKeptIff(fields: Fields, ps: seq<Predicate>, field: string)
    requires HoldsAll(fields, ps)
    ensures var b := BoundsOf(ps, field); Kept(SortValue(fields, field), b) <==> !LeftOut(fields, field, b)
  {
    var v, b := SortValue(fields, field), BoundsOf(ps, field);
    BoundsHold(fields, ps, field);
    if v.Some? && v == ResolvePath(fields, field) {
      if b.eq.Some? { EqIsKept(v.value, b.eq.value); }
      if b.lo.Some? { RangeIsKept(v.value, b.lo.value); }
      if b.hi.Some? { RangeIsKept(v.value, b.hi.value); }
    }
  }

  // ─── The answer ────────────────────────────────────────────────────────────

  /** An ungrouped ghost: its id, direction and order field, and the indexed records with their tiebreaks. */
  datatype Ghost = Ghost(id: U16, inverted: bool, field: string, entries: seq<(Record, seq<Byte>)>)

  function EntryKey(g: Ghost, e: (Record, seq<Byte>)): seq<Byte> {
    SortKey(g.id, SortValue(e.0.fields, g.field), g.inverted, e.1)
  }

  predicate Read(g: Ghost, w: Window, ps: seq<Predicate>, e: (Record, seq<Byte>)) {
    InWindow(EntryKey(g, e), w) && HoldsAll(e.0.fields, ps)
  }

  function Reader(g: Ghost, w: Window, ps: seq<Predicate>): ((Record, seq<Byte>)) -> bool {
    e => Read(g, w, ps, e)
  }

  /** Scan a window of the ghost and apply the filters. */
  function Answer(g: Ghost, w: Window, ps: seq<Predicate>): seq<(Record, seq<Byte>)> {
    Keep(g.entries, Reader(g, w, ps))
  }

  predicate LosesEntry(g: Ghost, ps: seq<Predicate>, e: (Record, seq<Byte>)) {
    HoldsAll(e.0.fields, ps) && LeftOut(e.0.fields, g.field, BoundsOf(ps, g.field))
  }

  lemma EntryKeptIff(g: Ghost, ps: seq<Predicate>, e: (Record, seq<Byte>))
    ensures var w, all := WindowOf(g.id, g.inverted, BoundsOf(ps, g.field)), Prefixed(BigEndian(g.id, 2));
            && (Read(g, w, ps, e) ==> Read(g, all, ps, e))
            && (LosesEntry(g, ps, e) <==> Read(g, all, ps, e) && !Read(g, w, ps, e))
  {
    var v := SortValue(e.0.fields, g.field);
    KeyParts(g.id, v, g.inverted, e.1);
    InWindowIffKept(g.id, g.inverted, BoundsOf(ps, g.field), v, e.1);
    if HoldsAll(e.0.fields, ps) { MatchingKeptIff(e.0.fields, ps, g.field); }
  }

  /**
   Seeking gives the answer of the whole-ghost scan exactly when no entry is lost,
   for every ghost and filter list.
   */
  lemma SeekKeepsAnswerIff(g: Ghost, ps: seq<Predicate>)
    ensures Answer(g, WindowOf(g.id, g.inverted, BoundsOf(ps, g.field)), ps)
            == Answer(g, Prefixed(BigEndian(g.id, 2)), ps)
            <==> forall e | e in g.entries :: !LosesEntry(g, ps, e)
  {
    var w, all := WindowOf(g.id, g.inverted, BoundsOf(ps, g.field)), Prefixed(BigEndian(g.id, 2));
    var p, q := Reader(g, w, ps), Reader(g, all, ps);
    forall e | e in g.entries ensures (p(e) ==> q(e)) && (LosesEntry(g, ps, e) <==> q(e) && !p(e)) {
      EntryKeptIff(g, ps, e);
    }
    KeepFewer(g.entries, p, q);
  }

  /** A ghost ordered by the path `a.b` keys the record under no value, so `a.b > 5` seeks past it. */
  lemma SeekLosesDotted(r: Record, t: seq<Byte>)
    requires r.fields == map["a" := Map(map["b" := Int(9)])]
    ensures LosesEntry(Ghost(1, false, "a.b", [(r, t)]), [Predicate("a.b", OpGt, Int(5))], (r, t))
  {
    var ps := [Predicate("a.b", OpGt, Int(5))];
    assert ps[..0] == [];
    assert BoundsOf(ps, "a.b") == Bounds(None, Some(Int(5)), None);
    SplitDotted();
    assert Walk(r.fields["a"], ["b"]) == Some(Int(9));
  }

  /** `x < 5` over a ghost that indexes the double 1.0 finds nothing through the seek. */
  lemma SeekLosesFloat(r: Record, t: seq<Byte>)
    requires r.fields == map["x" := Float(0x3FF0_0000_0000_0000)]
    ensures LosesEntry(Ghost(1, false, "x", [(r, t)]), [Predicate("x", OpLt, Int(5))], (r, t))
  {
    var ps := [Predicate("x", OpLt, Int(5))];
    assert ps[..0] == [];
    assert BoundsOf(ps, "x") == Bounds(None, None, Some(Int(5)));
    FiveAsFloat();
  }

  lemma FiveAsFloat()
    ensures IntToF64(5) == 0x4014_0000_0000_0000
  {
    assert Log2(5) == 2;
    Pow2Values();
    Pow2Add(50, 2);
  }
}
