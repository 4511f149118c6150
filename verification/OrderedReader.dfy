/**
 A record ghost read for ORDER BY and LIMIT: exactly when the rows come in the
 query's order, so that the first n are a right answer for every n, for one lobe
 and for every lobe.
 */
module OrderedReader {
  import opened Bytes
  import opened FieldDictionary
  import opened Filters
  import opened GhostReader
  import opened GhostSeek
  import opened QueryOrder
  import opened Ranking
  import opened Router
  import opened Sequences
  import opened SortKeys
  import opened Values

  /** The order of the query: by the resolved path, or none. */
  function CompareRows(q: Query, x: Row, y: Row): Ordering {
    match q.orderBy
    case None => Ordering.Equal
    case Some((field, descending)) =>
      Directed(CompareValues(ResolvePath(x.0.fields, field), ResolvePath(y.0.fields, field)), descending)
  }

  function RowCmp(q: Query): Comparator<Row> {
    (x: Row, y: Row) => CompareRows(q, x, y)
  }

  /** The keyspace lists entries by key, each key once. */
  predicate Listed(g: GhostSeek.Ghost) {
    forall i, j | 0 <= i < j < |g.entries| :: Lt(EntryKey(g, g.entries[i]), EntryKey(g, g.entries[j]))
  }

  /** The first n rows of the ghost answer the query with LIMIT n. */
  ghost predicate RightRead(g: GhostSeek.Ghost, q: Query, lobe: seq<Row>, n: nat) {
    RightTop(RowCmp(q), Keep(lobe, Wanted(q)), n, First(GhostRows(g, q), n))
  }

  // ─── One lobe ──────────────────────────────────────────────────────────────

  /** The keys are in one order and the values in the other. */
  predicate Misordered(g: GhostSeek.Ghost, q: Query, x: Row, y: Row) {
    Lt(EntryKey(g, x), EntryKey(g, y)) && CompareRows(q, x, y) == Greater
  }

  lemma RowsByKey(g: GhostSeek.Ghost, q: Query)
    requires Listed(g)
    ensures var rows := GhostRows(g, q);
            forall i, j | 0 <= i < j < |rows| :: Lt(EntryKey(g, rows[i]), EntryKey(g, rows[j]))
  {
    var earlier := (x: Row, y: Row) => Lt(EntryKey(g, x), EntryKey(g, y));
    KeepInOrder(g.entries, Reader(g, SeekWindow(g, q), q.filters), earlier);
  }

  lemma EarlierKey(g: GhostSeek.Ghost, rows: seq<Row>, i: nat, j: nat)
    requires forall i, j | 0 <= i < j < |rows| :: Lt(EntryKey(g, rows[i]), EntryKey(g, rows[j]))
    requires i < |rows| && j < |rows| && Lt(EntryKey(g, rows[i]), EntryKey(g, rows[j]))
    ensures i < j
  {
    CmpFlip(EntryKey(g, rows[i]), EntryKey(g, rows[j]));
  }

  /** The rows are in query order exactly when no two of them are misordered. */
  lemma SortedIff(g: GhostSeek.Ghost, q: Query)
    requires Listed(g)
    ensures Sorted(RowCmp(q), GhostRows(g, q))
            <==> forall x, y | x in GhostRows(g, q) && y in GhostRows(g, q) :: !Misordered(g, q, x, y)
  {
    var rows := GhostRows(g, q);
    RowsByKey(g, q);
    if Sorted(RowCmp(q), rows) {
      forall x, y | x in rows && y in rows ensures !Misordered(g, q, x, y) {
        var i, j :| 0 <= i < |rows| && 0 <= j < |rows| && rows[i] == x && rows[j] == y;
        if Lt(EntryKey(g, x), EntryKey(g, y)) {
          EarlierKey(g, rows, i, j);
          assert RowCmp(q)(rows[i], rows[j]) != Greater;
        }
      }
    } else {
      var i, j :| 0 <= i < j < |rows| && RowCmp(q)(rows[i], rows[j]) == Greater;
      assert Misordered(g, q, rows[i], rows[j]);
    }
  }

  lemma MemberOfKept(lobe: seq<Row>, p: Row -> bool, x: Row)
    ensures x in Keep(lobe, p) <==> x in lobe && p(x)
  {
    KeepCounts(lobe, p, x);
    assert x in multiset(Keep(lobe, p)) <==> x in Keep(lobe, p);
    assert x in multiset(lobe) <==> x in lobe;
  }

  lemma RowsAreWanted(g: GhostSeek.Ghost, q: Query, lobe: seq<Row>, x: Row)
    requires Agrees(g, q, lobe)
    ensures x in GhostRows(g, q) <==> x in lobe && Wanted(q)(x)
  {
    MemberOfKept(lobe, Wanted(q), x);
    assert x in multiset(GhostRows(g, q)) <==> x in multiset(Keep(lobe, Wanted(q)));
  }

  ghost predicate InQueryOrder(g: GhostSeek.Ghost, q: Query, lobe: seq<Row>) {
    forall x, y | x in lobe && y in lobe && Wanted(q)(x) && Wanted(q)(y) :: !Misordered(g, q, x, y)
  }

  lemma SortedIffInOrder(g: GhostSeek.Ghost, q: Query, lobe: seq<Row>)
    requires Listed(g) && Agrees(g, q, lobe)
    ensures Sorted(RowCmp(q), GhostRows(g, q)) <==> InQueryOrder(g, q, lobe)
  {
    SortedIff(g, q);
    forall x ensures x in GhostRows(g, q) <==> x in lobe && Wanted(q)(x) { RowsAreWanted(g, q, lobe, x); }
  }

  /**
   For a given lobe, the first n rows read are a right answer for every n exactly
   when the ghost finds the lobe's rows and no two wanted rows are misordered.
   */
  lemma OrderedAnswerIff(g: GhostSeek.Ghost, q: Query, lobe: seq<Row>)
    requires Listed(g)
    ensures (forall n: nat :: RightRead(g, q, lobe, n)) <==> Agrees(g, q, lobe) && InQueryOrder(g, q, lobe)
  {
    var cmp, wanted, rows := RowCmp(q), Keep(lobe, Wanted(q)), GhostRows(g, q);
    RightPrefixesIff(cmp, wanted, rows);
    if Agrees(g, q, lobe) { SortedIffInOrder(g, q, lobe); }
    assert forall n: nat :: RightRead(g, q, lobe, n) <==> RightTop(cmp, wanted, n, First(rows, n));
  }

  // ─── Every lobe ────────────────────────────────────────────────────────────

  predicate PlainName(field: string) {
    field != "" && '.' !in field
  }

  /** Some record the query wants resolves the order field to `a`. */
  ghost predicate LetThrough(q: Query, field: string, a: Option<Value>) {
    exists f: Fields :: MatchesOpt(f, q.expr) && ResolvePath(f, field) == a
  }

  /**
   What ORDER BY asks of the values the query lets through. On a plain order field
   no two of them may clash: null only alone, no Int above a Float, one timestamp
   and one boolean at most. A dotted or empty order field is not what the sort key
   is made from, so there all of them must tie.
   */
  ghost predicate OrderSafe(q: Query, field: string) {
    if PlainName(field) then forall a, b | LetThrough(q, field, a) && LetThrough(q, field, b) :: !Clash(a, b)
    else forall a, b | LetThrough(q, field, a) && LetThrough(q, field, b) :: CompareValues(a, b) == Ordering.Equal
  }

  /** For every ghost, lobe and LIMIT the rows read are a right answer. */
  ghost predicate AlwaysRight(m: Meta, q: Query) {
    forall g, lobe, n: nat | Indexes(g, m, lobe) && Listed(g) :: RightRead(g, q, lobe, n)
  }

  lemma KeyThenValue(g: GhostSeek.Ghost, x: Row, y: Row)
    requires Lt(EntryKey(g, x), EntryKey(g, y))
    ensures Directed(SortCmp(SortValue(x.0.fields, g.field), SortValue(y.0.fields, g.field)), g.inverted) != Greater
  {
    var u, v := SortValue(x.0.fields, g.field), SortValue(y.0.fields, g.field);
    if SortCmp(u, v) != Ordering.Equal { SortKeyOrder(g.id, u, v, g.inverted, x.1, y.1); }
  }

  lemma PlainSortValue(f: Fields, field: string)
    requires PlainName(field)
    ensures SortValue(f, field) == ResolvePath(f, field)
  {
  }

  lemma SafeIsOrdered(g: GhostSeek.Ghost, q: Query, x: Row, y: Row)
    requires q.orderBy == Some((g.field, g.inverted)) && OrderSafe(q, g.field) && Wanted(q)(x) && Wanted(q)(y)
    ensures !Misordered(g, q, x, y)
  {
    var a, b := ResolvePath(x.0.fields, g.field), ResolvePath(y.0.fields, g.field);
    assert LetThrough(q, g.field, a) && LetThrough(q, g.field, b);
    if PlainName(g.field) && Lt(EntryKey(g, x), EntryKey(g, y)) {
      KeyThenValue(g, x, y);
      PlainSortValue(x.0.fields, g.field);
      PlainSortValue(y.0.fields, g.field);
      ClashIff(a, b);
      SortCmpFlip(a, b);
      CompareFlip(a, b);
    }
  }

  /** Tiebreaks that put the first of two rows first, in either direction. */
  function TieFor(inverted: bool, second: bool): seq<Byte> {
    if inverted == second then [0] else [1]
  }

  lemma FirstKey(id: U16, u: Option<Value>, v: Option<Value>, inverted: bool)
    requires Directed(SortCmp(u, v), inverted) != Greater
    ensures Lt(SortKey(id, u, inverted, TieFor(inverted, false)), SortKey(id, v, inverted, TieFor(inverted, true)))
  {
    if SortCmp(u, v) == Ordering.Equal {
      TiebreakOrder(id, u, v, inverted, TieFor(inverted, false), TieFor(inverted, true));
    } else {
      SortKeyOrder(id, u, v, inverted, TieFor(inverted, false), TieFor(inverted, true));
    }
  }

  lemma KeepBoth(p: Row -> bool, x: Row, y: Row)
    requires p(x) && p(y)
    ensures Keep([x, y], p) == [x, y]
  {
    assert [x, y][..1] == [x] && [x][..0] == [];
    assert Keep([x], p) == [x];
  }

  lemma ListsTwo(g: GhostSeek.Ghost, x: Row, y: Row)
    requires g.entries == [x, y] && Lt(EntryKey(g, x), EntryKey(g, y))
    ensures Listed(g)
  {
  }

  /** Two records the ghost lists one before the other, whatever decides: the values or the tiebreaks. */
  lemma TwoRows(m: Meta, f: Fields, h: Fields) returns (g: GhostSeek.Ghost, x: Row, y: Row)
    requires Matches(f, m.filter) && Matches(h, m.filter)
    requires Directed(SortCmp(SortValue(f, m.orderByField), SortValue(h, m.orderByField)), m.sortInverted) != Greater
    ensures Indexes(g, m, [x, y]) && Listed(g) && x.0.fields == f && y.0.fields == h
    ensures Lt(EntryKey(g, x), EntryKey(g, y))
  {
    x := (Filters.Record(0, "", f, 0, 0), TieFor(m.sortInverted, false));
    y := (Filters.Record(1, "", h, 0, 0), TieFor(m.sortInverted, true));
    g := GhostSeek.Ghost(1, m.sortInverted, m.orderByField, [x, y]);
    FirstKey(1, SortValue(f, m.orderByField), SortValue(h, m.orderByField), m.sortInverted);
    ListsTwo(g, x, y);
    KeepBoth(InGhost(m), x, y);
  }

  /** Removing a field whose name is dotted changes nothing a query can see. */
  lemma DottedDropped(q: Query, f: Fields, field: string)
    requires '.' in field
    ensures MatchesOpt(f - {field}, q.expr) == MatchesOpt(f, q.expr)
    ensures ResolvePath(f - {field}, field) == ResolvePath(f, field)
  {
    forall path ensures ResolvePath(f - {field}, path) == ResolvePath(f, path) { HeadIsPlain(path); }
    if q.expr.Some? { SamePathsSameMatch(f - {field}, f, q.expr.value); }
  }

  /** Where the condition fails, two wanted records have keys that tie or go one way and values that go the other. */
  lemma UnsafeRecords(q: Query, field: string) returns (f: Fields, h: Fields)
    requires !OrderSafe(q, field)
    ensures MatchesOpt(f, q.expr) && MatchesOpt(h, q.expr)
    ensures SortCmp(SortValue(f, field), SortValue(h, field)) != Greater
    ensures CompareValues(ResolvePath(f, field), ResolvePath(h, field)) == Greater
  {
    if PlainName(field) {
      var a, b :| LetThrough(q, field, a) && LetThrough(q, field, b) && Clash(a, b);
      ClashIff(a, b);
      if !ListedAgainst(a, b) { a, b := b, a; }
      f :| MatchesOpt(f, q.expr) && ResolvePath(f, field) == a;
      h :| MatchesOpt(h, q.expr) && ResolvePath(h, field) == b;
      PlainSortValue(f, field);
      PlainSortValue(h, field);
    } else {
      var a, b :| LetThrough(q, field, a) && LetThrough(q, field, b) && CompareValues(a, b) != Ordering.Equal;
      CompareFlip(a, b);
      if CompareValues(a, b) != Greater { a, b := b, a; }
      f :| MatchesOpt(f, q.expr) && ResolvePath(f, field) == a;
      h :| MatchesOpt(h, q.expr) && ResolvePath(h, field) == b;
      if field != "" {
        DottedDropped(q, f, field);
        DottedDropped(q, h, field);
        f, h := f - {field}, h - {field};
      }
    }
  }

  lemma UnsafeMisorders(m: Meta, q: Query) returns (g: GhostSeek.Ghost, x: Row, y: Row)
    requires WellRegistered(m) && WellPosed(q) && Relevant(m, q)
    requires q.orderBy == Some((m.orderByField, m.sortInverted)) && !OrderSafe(q, m.orderByField)
    ensures Indexes(g, m, [x, y]) && Listed(g) && Wanted(q)(x) && Wanted(q)(y) && Misordered(g, q, x, y)
  {
    var field := m.orderByField;
    var f, h := UnsafeRecords(q, field);
    RelevantContainsAnswer(m, q, f);
    RelevantContainsAnswer(m, q, h);
    SortCmpFlip(SortValue(f, field), SortValue(h, field));
    CompareFlip(ResolvePath(f, field), ResolvePath(h, field));
    if m.sortInverted {
      g, x, y := TwoRows(m, h, f);
    } else {
      g, x, y := TwoRows(m, f, h);
    }
  }

  lemma SafeIsRight(m: Meta, q: Query, g: GhostSeek.Ghost, lobe: seq<Row>)
    requires AlwaysAgrees(m, q) && Indexes(g, m, lobe) && Listed(g) && ServesRecords(m, q)
    requires q.orderBy.Some? ==> OrderSafe(q, m.orderByField)
    ensures forall n: nat :: RightRead(g, q, lobe, n)
  {
    OrderedAnswerIff(g, q, lobe);
    forall x, y | x in lobe && y in lobe && Wanted(q)(x) && Wanted(q)(y) ensures !Misordered(g, q, x, y) {
      if q.orderBy.Some? { SafeIsOrdered(g, q, x, y); }
    }
    assert InQueryOrder(g, q, lobe);
  }

  lemma DifferentIsWrong(m: Meta, q: Query)
    requires WellRegistered(m) && WellPosed(q) && Relevant(m, q)
    requires !(RefilterSafe(m, q) && SeekSafe(q.filters, m.orderByField))
    ensures !AlwaysRight(m, q)
  {
    var g, lobe := DifferentRows(m, q);
    OrderedAnswerIff(g, q, lobe);
  }

  lemma MisorderedIsWrong(m: Meta, q: Query)
    requires WellRegistered(m) && WellPosed(q) && Relevant(m, q)
    requires q.orderBy == Some((m.orderByField, m.sortInverted)) && !OrderSafe(q, m.orderByField)
    ensures !AlwaysRight(m, q)
  {
    var g, x, y := UnsafeMisorders(m, q);
    OrderedAnswerIff(g, q, [x, y]);
    assert x in [x, y] && y in [x, y];
  }

  /**
   Exactly when routing to a record ghost never changes an answer, ORDER BY and
   LIMIT included: the reader can apply the query's expression again, its literals
   never make the seek pass by a match, and, for an ordered query, the values it
   lets through are in the same order by key and by value.
   */
  lemma GhostReaderExact(m: Meta, q: Query)
    requires WellRegistered(m) && WellPosed(q) && Relevant(m, q) && ServesRecords(m, q)
    ensures AlwaysRight(m, q) <==>
            && RefilterSafe(m, q) && SeekSafe(q.filters, m.orderByField)
            && (q.orderBy.Some? ==> OrderSafe(q, m.orderByField))
  {
    if !(RefilterSafe(m, q) && SeekSafe(q.filters, m.orderByField)) {
      DifferentIsWrong(m, q);
    } else if q.orderBy.Some? && !OrderSafe(q, m.orderByField) {
      MisorderedIsWrong(m, q);
    } else {
      SameRowsIff(m, q);
      forall g, lobe, n: nat | Indexes(g, m, lobe) && Listed(g) ensures RightRead(g, q, lobe, n) {
        SafeIsRight(m, q, g, lobe);
      }
    }
  }
}
