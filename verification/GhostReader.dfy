/**
 Reading a record ghost: the seek window and the query's flat predicates over the
 ghost's entries, against the query over the whole lobe. Exactly when the two
 find the same rows, for one lobe and for every lobe.
 */
module GhostReader {
  import opened Bytes
  import opened Filters
  import opened GhostSeek
  import opened Router
  import opened Sequences
  import opened SortKeys
  import opened Values

  /** A record under its spatial key, which also breaks ties among sort keys. */
  type Row = (Record, seq<Byte>)

  function InGhost(m: Meta): Row -> bool {
    (x: Row) => Matches(x.0.fields, m.filter)
  }

  function Wanted(q: Query): Row -> bool {
    (x: Row) => MatchesOpt(x.0.fields, q.expr)
  }

  /** The ghost holds the lobe's records that match its filter, in whatever order its keys list them. */
  ghost predicate Indexes(g: GhostSeek.Ghost, m: Meta, lobe: seq<Row>) {
    && g.inverted == m.sortInverted && g.field == m.orderByField
    && multiset(g.entries) == multiset(Keep(lobe, InGhost(m)))
  }

  function SeekWindow(g: GhostSeek.Ghost, q: Query): Window {
    WindowOf(g.id, g.inverted, BoundsOf(q.filters, g.field))
  }

  /** What reading the ghost yields: the entries inside the seek window that satisfy the flat predicates. */
  function GhostRows(g: GhostSeek.Ghost, q: Query): seq<Row> {
    Answer(g, SeekWindow(g, q), q.filters)
  }

  /** The streaming scan: seek, filter each entry again, stop after `n`. */
  method ReadTopN(g: GhostSeek.Ghost, q: Query, n: nat) returns (results: seq<Row>)
    ensures results == First(GhostRows(g, q), n)
  {
    var b := CollectBounds(q.filters, g.field);
    var w := WindowOf(g.id, g.inverted, b);
    ghost var keep := Reader(g, w, q.filters);
    results := [];
    for i := 0 to |g.entries|
      invariant results == Keep(g.entries[..i], keep) && |results| <= n
    {
      if |results| >= n {
        KeptEnough(g.entries, keep, i);
        return;
      }
      KeepNext(g.entries, keep, i);
      var e := g.entries[i];
      if InWindow(EntryKey(g, e), w) && HoldsAll(e.0.fields, q.filters) {
        results := results + [e];
      }
    }
    assert g.entries[..|g.entries|] == g.entries;
  }

  /** The same rows, in whatever order; the order is the concern of `OrderedReader`. */
  ghost predicate Agrees(g: GhostSeek.Ghost, q: Query, lobe: seq<Row>) {
    multiset(GhostRows(g, q)) == multiset(Keep(lobe, Wanted(q)))
  }

  // ─── One lobe ──────────────────────────────────────────────────────────────

  /** The query asks for nothing the flat predicates cannot express. */
  ghost predicate RefilterSafe(m: Meta, q: Query) {
    FlatQuery(q) || (q.expr.Some? && SameExpr(m.filter, q.expr.value)) || forall f: Fields :: MatchesOpt(f, q.expr)
  }

  predicate SoughtPast(m: Meta, q: Query, fields: Fields) {
    LeftOut(fields, m.orderByField, BoundsOf(q.filters, m.orderByField))
  }

  /** When the flat predicates suffice, a row is read exactly when it is wanted and the seek does not pass it by. */
  lemma ReadIffWanted(g: GhostSeek.Ghost, m: Meta, q: Query, x: Row)
    requires g.inverted == m.sortInverted && g.field == m.orderByField
    requires WellRegistered(m) && WellPosed(q) && Relevant(m, q) && RefilterSafe(m, q)
    ensures InGhost(m)(x) && Read(g, SeekWindow(g, q), q.filters, x)
            <==> Wanted(q)(x) && !SoughtPast(m, q, x.0.fields)
  {
    var f := x.0.fields;
    FlatMeaning(q, f);
    if Wanted(q)(x) { RelevantContainsAnswer(m, q, f); }
    if q.expr.Some? && SameExpr(m.filter, q.expr.value) { SameExprSameMeaning(f, m.filter, q.expr.value); }
    EntryKeptIff(g, q.filters, x);
    KeyParts(g.id, SortValue(f, g.field), g.inverted, x.1);
  }

  /** When they do not, every record of the lobe is read: the predicate is lost. */
  lemma ReadsAll(g: GhostSeek.Ghost, m: Meta, q: Query, x: Row)
    requires WellRegistered(m) && WellPosed(q) && Relevant(m, q) && !RefilterSafe(m, q)
    ensures InGhost(m)(x) && Read(g, SeekWindow(g, q), q.filters, x)
  {
    assert q.filters == [];
    assert m.filterFields != [] ==> Among(m.filterFields[0], q.filters);
    FlatAndMeaning(x.0.fields, m.filter);
    KeyParts(g.id, SortValue(x.0.fields, g.field), g.inverted, x.1);
  }

  /**
   For a given lobe, reading the ghost finds the lobe's rows exactly when the
   seek passes by no wanted record; or, where the query's expression is one the
   reader cannot apply again, exactly when the query wants every record.
   */
  lemma GhostAnswerIff(g: GhostSeek.Ghost, m: Meta, q: Query, lobe: seq<Row>)
    requires WellRegistered(m) && WellPosed(q) && Relevant(m, q) && Indexes(g, m, lobe)
    ensures Agrees(g, q, lobe) <==>
            if RefilterSafe(m, q) then forall x | x in lobe && Wanted(q)(x) :: !SoughtPast(m, q, x.0.fields)
            else forall x | x in lobe :: Wanted(q)(x)
  {
    var reader := Reader(g, SeekWindow(g, q), q.filters);
    SameSelection(lobe, g.entries, InGhost(m), reader, Wanted(q));
    forall x | x in lobe
      ensures InGhost(m)(x) && reader(x)
              <==> (RefilterSafe(m, q) ==> Wanted(q)(x) && !SoughtPast(m, q, x.0.fields))
    {
      if RefilterSafe(m, q) { ReadIffWanted(g, m, q, x); } else { ReadsAll(g, m, q, x); }
    }
  }

  // ─── Every record that satisfies the predicates ────────────────────────────

  /** The predicates that look at the field, of a record with `v` there. */
  predicate FieldHolds(v: Value, field: string, ps: seq<Predicate>) {
    forall k | 0 <= k < |ps| && Split(ps[k].field)[0] == field :: Holds(map[field := v], ps[k])
  }

  /** The predicates that look elsewhere. */
  predicate RestHolds(f: Fields, field: string, ps: seq<Predicate>) {
    forall k | 0 <= k < |ps| && Split(ps[k].field)[0] != field :: Holds(f, ps[k])
  }

  /** Bounds every sort value lies between. */
  predicate Idle(b: Bounds) {
    b.eq == None && (b.lo.Some? ==> Tag(b.lo) == 0) && (b.hi.Some? ==> Tag(b.hi) == 0xFF)
  }

  /**
   What the literals must be for the seek to pass by no matching record. On a
   plain order field: no value that the filters accept is one the bounds lose, or
   the other predicates cannot hold. A dotted order field is keyed by a name no
   path reaches, and an empty one by nothing, so there the bounds must be idle,
   or must admit the null key.
   */
  ghost predicate SeekSafe(ps: seq<Predicate>, field: string) {
    var b := BoundsOf(ps, field);
    if field == "" then Kept(None, b) || !Matchable(ps)
    else if '.' in field then Idle(b) || !Matchable(ps)
    else (forall f: Fields :: !RestHolds(f, field, ps)) || forall v | Lost(v, b) :: !FieldHolds(v, field, ps)
  }

  lemma IdleKeepsAll(b: Bounds) returns (s: Option<Value>)
    ensures Idle(b) ==> forall v :: Kept(v, b)
    ensures !Idle(b) ==> !Kept(s, b)
  {
    s := if b.eq.Some? then (if Tag(b.eq) == 0 then Some(Int(0)) else None)
         else if b.lo.Some? && Tag(b.lo) != 0 then None else Some(Bool(true));
  }

  /** A record is its value at a plain field and the rest. */
  lemma SplitAtField(f: Fields, field: string, ps: seq<Predicate>)
    requires field in f && '.' !in field
    ensures HoldsAll(f, ps) <==> FieldHolds(f[field], field, ps) && RestHolds(f, field, ps)
  {
    forall k | 0 <= k < |ps| && Split(ps[k].field)[0] == field
      ensures Holds(f, ps[k]) == Holds(map[field := f[field]], ps[k])
    {
      assert ResolvePath(f, ps[k].field) == ResolvePath(map[field := f[field]], ps[k].field);
    }
  }

  lemma RestKept(f: Fields, field: string, v: Value, ps: seq<Predicate>)
    requires RestHolds(f, field, ps)
    ensures RestHolds(f[field := v], field, ps)
  {
    forall k | 0 <= k < |ps| && Split(ps[k].field)[0] != field ensures Holds(f[field := v], ps[k]) {
      assert ResolvePath(f, ps[k].field) == ResolvePath(f[field := v], ps[k].field);
    }
  }

  lemma SafeLeavesNoneOut(ps: seq<Predicate>, field: string, f: Fields)
    requires SeekSafe(ps, field) && HoldsAll(f, ps)
    ensures !LeftOut(f, field, BoundsOf(ps, field))
  {
    var b := BoundsOf(ps, field);
    MatchingKeptIff(f, ps, field);
    if '.' in field {
      var s := IdleKeepsAll(b);
    } else if field != "" && field in f {
      SplitAtField(f, field, ps);
    }
  }

  /** Where the condition fails, some matching record is passed by. */
  lemma UnsafeLeavesOut(ps: seq<Predicate>, field: string) returns (f: Fields)
    requires !SeekSafe(ps, field)
    ensures HoldsAll(f, ps) && LeftOut(f, field, BoundsOf(ps, field))
  {
    var b := BoundsOf(ps, field);
    if field == "" {
      f :| HoldsAll(f, ps);
    } else if '.' in field {
      var g: Fields :| HoldsAll(g, ps);
      var s := IdleKeepsAll(b);
      f := if s.Some? then g[field := s.value] else g - {field};
      DottedUnreached(g, f, field, ps);
    } else {
      var g: Fields :| RestHolds(g, field, ps);
      var v :| Lost(v, b) && FieldHolds(v, field, ps);
      f := g[field := v];
      RestKept(g, field, v, ps);
      SplitAtField(f, field, ps);
    }
    MatchingKeptIff(f, ps, field);
  }

  // ─── Every lobe ────────────────────────────────────────────────────────────

  ghost predicate AlwaysAgrees(m: Meta, q: Query) {
    forall g, lobe | Indexes(g, m, lobe) :: Agrees(g, q, lobe)
  }

  lemma OneRow(m: Meta, f: Fields) returns (g: GhostSeek.Ghost, lobe: seq<Row>)
    ensures Indexes(g, m, lobe) && |g.entries| <= 1 && |lobe| == 1 && lobe[0].0.fields == f
  {
    var row: Row := (Filters.Record(0, "", f, 0, 0), []);
    lobe := [row];
    g := GhostSeek.Ghost(1, m.sortInverted, m.orderByField, Keep(lobe, InGhost(m)));
  }

  /** Where the condition fails, a lobe of one record tells. */
  lemma DifferentRows(m: Meta, q: Query) returns (g: GhostSeek.Ghost, lobe: seq<Row>)
    requires WellRegistered(m) && WellPosed(q) && Relevant(m, q)
    requires !(RefilterSafe(m, q) && SeekSafe(q.filters, m.orderByField))
    ensures Indexes(g, m, lobe) && |g.entries| <= 1 && !Agrees(g, q, lobe)
  {
    var f: Fields;
    if !RefilterSafe(m, q) {
      f :| !MatchesOpt(f, q.expr);
    } else {
      f := UnsafeLeavesOut(q.filters, m.orderByField);
      FlatMeaning(q, f);
      assert FlatQuery(q);
    }
    g, lobe := OneRow(m, f);
    GhostAnswerIff(g, m, q, lobe);
    assert lobe[0] in lobe;
  }

  /**
   Exactly when reading a relevant record ghost always finds the lobe's rows: the
   reader can apply the query's expression again, and its literals never make the
   seek pass by a matching record.
   */
  lemma SameRowsIff(m: Meta, q: Query)
    requires WellRegistered(m) && WellPosed(q) && Relevant(m, q)
    ensures AlwaysAgrees(m, q) <==> RefilterSafe(m, q) && SeekSafe(q.filters, m.orderByField)
  {
    if RefilterSafe(m, q) && SeekSafe(q.filters, m.orderByField) {
      forall g, lobe | Indexes(g, m, lobe) ensures Agrees(g, q, lobe) {
        forall x | x in lobe && Wanted(q)(x) ensures !SoughtPast(m, q, x.0.fields) {
          FlatMeaning(q, x.0.fields);
          SafeLeavesNoneOut(q.filters, m.orderByField, x.0.fields);
        }
        GhostAnswerIff(g, m, q, lobe);
      }
    } else {
      var g, lobe := DifferentRows(m, q);
    }
  }

  /** Where the expression cannot be applied again, a record the query excludes is in the answer. */
  lemma GhostReaderLeaks(g: GhostSeek.Ghost, m: Meta, q: Query, lobe: seq<Row>, x: Row)
    requires WellRegistered(m) && WellPosed(q) && Relevant(m, q) && !RefilterSafe(m, q)
    requires Indexes(g, m, lobe) && x in lobe && !Wanted(q)(x)
    ensures x in multiset(GhostRows(g, q)) && x !in multiset(Keep(lobe, Wanted(q)))
  {
    ReadsAll(g, m, q, x);
    KeepCounts(lobe, InGhost(m), x);
    KeepCounts(g.entries, Reader(g, SeekWindow(g, q), q.filters), x);
    KeepCounts(lobe, Wanted(q), x);
    assert x in multiset(lobe);
  }

  /** `x < 5` read through a whole-lobe ghost ordered by `x` misses the record that holds the double 1.0. */
  lemma FloatIsMissed(g: GhostSeek.Ghost, m: Meta, q: Query, x: Row)
    requires WellRegistered(m) && WellPosed(q) && Relevant(m, q) && Indexes(g, m, [x])
    requires m.orderByField == "x" && q.expr == Some(Condition(Predicate("x", OpLt, Int(5))))
    requires x.0.fields == map["x" := Float(0x3FF0_0000_0000_0000)]
    ensures Wanted(q)(x) && !Agrees(g, q, [x])
  {
    SeekLosesFloat(x.0, x.1);
    FlatMeaning(q, x.0.fields);
    GhostAnswerIff(g, m, q, [x]);
    assert x in [x];
  }
}
