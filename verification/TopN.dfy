/**
 `TAKE n BY metric` over grouped rows: partial selection, truncation and a sort
 of the survivors, against sorting everything and taking the first n.
 */
module TopN {
  import opened Bytes
  import opened Filters
  import GroupKeys
  import opened Ranking
  import opened SortKeys
  import opened Values

  type Row = Fields

  /** The clause, with BY resolved to the label of a metric column. */
  datatype Top = Top(n: nat, metric: Option<string>, descending: bool)

  /** The group fields, and how values other than texts, integers and null are displayed. */
  datatype Grouping = Grouping(fields: seq<string>, render: Value -> seq<Byte>)

  datatype Outcome = Rows(rows: seq<Row>) | NotAMetric(name: string)

  // ─── The comparator ────────────────────────────────────────────────────────

  const NEG_INFINITY: F64 := 0xFFF0_0000_0000_0000
  const PIPE: Byte := 0x7C

  function Metric(row: Row, name: string): F64 {
    match Lookup(row, name)
    case Some(Int(i)) => IntToF64(i)
    case Some(Float(f)) => f
    case _ => NEG_INFINITY
  }

  const QUOTE: Byte := 0x22

  /** `format!("{v}")`: text is quoted, and not escaped. */
  function Display(g: Grouping, v: Value): seq<Byte> {
    match v
    case Text(s) => [QUOTE] + s + [QUOTE]
    case Int(i) => GroupKeys.IntText(i)
    case Null => [0x6E, 0x75, 0x6C, 0x6C]
    case _ => g.render(v)
  }

  function Fragments(g: Grouping, row: Row): (ps: seq<seq<Byte>>)
    ensures |ps| == |g.fields|
  {
    seq(|g.fields|, i requires 0 <= i < |g.fields| =>
      if g.fields[i] in row then Display(g, row[g.fields[i]]) else [])
  }

  function Join(ps: seq<seq<Byte>>): seq<Byte> {
    if ps == [] then []
    else if |ps| == 1 then ps[0]
    else ps[0] + ([PIPE] + Join(ps[1..]))
  }

  function TieKey(g: Grouping, row: Row): seq<Byte> {
    Join(Fragments(g, row))
  }

  function CompareRows(g: Grouping, name: string, descending: bool, a: Row, b: Row): Ordering {
    var ranks := IntCmp(TotalRank(Metric(a, name)), TotalRank(Metric(b, name)));
    (if descending then ranks.Reverse() else ranks).Then(Cmp(TieKey(g, a), TieKey(g, b)))
  }

  function RowOrder(g: Grouping, name: string, descending: bool): Comparator<Row> {
    (a, b) => CompareRows(g, name, descending, a, b)
  }

  /** The comparator is a total preorder, so sorting and selecting by it are well defined. */
  lemma RowOrderIsTotal(g: Grouping, name: string, descending: bool)
    ensures TotalPreorder(RowOrder(g, name, descending))
  {
    var cmp := RowOrder(g, name, descending);
    forall a, b ensures cmp(b, a) == cmp(a, b).Reverse() {
      CmpFlip(TieKey(g, a), TieKey(g, b));
    }
    forall a, b, c | cmp(a, b) != Greater && cmp(b, c) != Greater ensures cmp(a, c) != Greater {
      if Le(TieKey(g, a), TieKey(g, b)) && Le(TieKey(g, b), TieKey(g, c)) {
        LeTransitive(TieKey(g, a), TieKey(g, b), TieKey(g, c));
      }
    }
  }

  // ─── The operation ─────────────────────────────────────────────────────────

  /** Stands for the library's selection: any arrangement inside its contract. */
  method SelectNth(cmp: Comparator<Row>, rows: seq<Row>, n: nat) returns (p: seq<Row>)
    requires TotalPreorder(cmp) && n < |rows|
    ensures Selected(cmp, rows, n, p)
  {
    SortSorts(cmp, rows);
    SortPermutes(cmp, rows);
    p := SortBy(cmp, rows);
    SortedIsSelected(cmp, rows, n, p);
  }

  /** What selecting, truncating and sorting may return. */
  ghost predicate TopRows(cmp: Comparator<Row>, rows: seq<Row>, n: nat, out: seq<Row>) {
    if n >= |rows| then out == SortBy(cmp, rows)
    else exists p :: Selected(cmp, rows, n, p) && out == SortBy(cmp, p[..n])
  }

  method ApplyTop(rows: seq<Row>, top: Top, g: Grouping) returns (r: Outcome)
    ensures top.metric == None ==> r == Rows(if top.n < |rows| then rows[..top.n] else rows)
    ensures top.metric.Some? && rows != [] && top.metric.value !in rows[0] ==> r == NotAMetric(top.metric.value)
    ensures top.metric.Some? && (rows == [] || top.metric.value in rows[0]) ==>
              r.Rows? && TopRows(RowOrder(g, top.metric.value, top.descending), rows, top.n, r.rows)
  {
    if top.metric == None {
      return Rows(if top.n < |rows| then rows[..top.n] else rows);
    }
    var name := top.metric.value;
    if rows != [] && name !in rows[0] {
      return NotAMetric(name);
    }
    var cmp := RowOrder(g, name, top.descending);
    RowOrderIsTotal(g, name, top.descending);
    var kept := rows;
    if top.n < |rows| {
      kept := SelectNth(cmp, rows, top.n);
      kept := kept[..top.n];
    }
    return Rows(SortBy(cmp, kept));
  }

  // ─── Against sorting everything ────────────────────────────────────────────

  function SortAll(cmp: Comparator<Row>, rows: seq<Row>, n: nat): seq<Row> {
    var s := SortBy(cmp, rows);
    if n < |s| then s[..n] else s
  }

  /**
   Every result is the sorted prefix exactly when the cut-off is not reached or
   none of the first n rows ties with a different row.
   */
  lemma TopIsSortedPrefixIff(g: Grouping, name: string, descending: bool, rows: seq<Row>, n: nat)
    ensures var cmp := RowOrder(g, name, descending);
            (forall out | TopRows(cmp, rows, n, out) :: out == SortAll(cmp, rows, n))
            <==> n >= |rows| || NoTiesUpTo(cmp, SortBy(cmp, rows), n)
  {
    var cmp := RowOrder(g, name, descending);
    RowOrderIsTotal(g, name, descending);
    if n < |rows| {
      SelectThenSortIff(cmp, rows, n);
      if !NoTiesUpTo(cmp, SortBy(cmp, rows), n) {
        var p := TieMatters(cmp, rows, n);
        assert TopRows(cmp, rows, n, SortBy(cmp, p[..n]));
      }
    }
  }

  /** Rows that compare equal have the same tie key. */
  lemma TiesShareKey(g: Grouping, name: string, descending: bool, a: Row, b: Row)
    requires RowOrder(g, name, descending)(a, b) == Equal
    ensures TieKey(g, a) == TieKey(g, b)
  {
    CmpEqual(TieKey(g, a), TieKey(g, b));
  }

  predicate KeysDiffer(g: Grouping, rows: seq<Row>) {
    forall i, j | 0 <= i < j < |rows| :: TieKey(g, rows[i]) != TieKey(g, rows[j])
  }

  lemma SameKeySameRow(g: Grouping, rows: seq<Row>, x: Row, y: Row)
    requires KeysDiffer(g, rows) && x in rows && y in rows && TieKey(g, x) == TieKey(g, y)
    ensures x == y
  {
  }

  /** Rows whose tie keys differ never tie. */
  lemma DistinctKeysNeverTie(g: Grouping, name: string, descending: bool, rows: seq<Row>, n: nat)
    requires KeysDiffer(g, rows)
    ensures var cmp := RowOrder(g, name, descending); NoTiesUpTo(cmp, SortBy(cmp, rows), n)
  {
    var cmp := RowOrder(g, name, descending);
    var s := SortBy(cmp, rows);
    SortPermutes(cmp, rows);
    forall i, j | 0 <= i < j < |s| && i < n && cmp(s[i], s[j]) == Equal ensures s[i] == s[j] {
      TiesShareKey(g, name, descending, s[i], s[j]);
      assert s[i] in multiset(s) && s[j] in multiset(s);
      SameKeySameRow(g, rows, s[i], s[j]);
    }
  }

  /** Applying the clause to its own result changes nothing. */
  lemma TopIsIdempotent(g: Grouping, name: string, descending: bool, rows: seq<Row>, n: nat, once: seq<Row>,
                        twice: seq<Row>)
    requires TopRows(RowOrder(g, name, descending), rows, n, once)
    requires TopRows(RowOrder(g, name, descending), once, n, twice)
    ensures twice == once && |once| <= n
  {
    var cmp := RowOrder(g, name, descending);
    RowOrderIsTotal(g, name, descending);
    if n >= |rows| {
      SortSorts(cmp, rows);
    } else {
      var p :| Selected(cmp, rows, n, p) && once == SortBy(cmp, p[..n]);
      SortSorts(cmp, p[..n]);
    }
    SortOfSorted(cmp, once);
  }

  // ─── When tie keys differ ──────────────────────────────────────────────────

  predicate PipeFree(ps: seq<seq<Byte>>) {
    forall i | 0 <= i < |ps| :: PIPE !in ps[i]
  }

  /** Fragments without a pipe are recovered from the joined key. */
  lemma {:induction false} JoinInjective(ps: seq<seq<Byte>>, qs: seq<seq<Byte>>)
    requires |ps| == |qs| && PipeFree(ps) && PipeFree(qs) && Join(ps) == Join(qs)
    ensures ps == qs
  {
    if |ps| >= 2 {
      SplitAtPipe(ps[0], qs[0], Join(ps[1..]), Join(qs[1..]));
      JoinInjective(ps[1..], qs[1..]);
      assert ps == [ps[0]] + ps[1..] && qs == [qs[0]] + qs[1..];
    }
  }

  lemma {:induction false} SplitAtPipe(a: seq<Byte>, b: seq<Byte>, x: seq<Byte>, y: seq<Byte>)
    requires PIPE !in a && PIPE !in b && a + ([PIPE] + x) == b + ([PIPE] + y)
    ensures a == b && x == y
  {
    var s, t := a + ([PIPE] + x), b + ([PIPE] + y);
    assert s[|a|] == PIPE && t[|b|] == PIPE;
    assert |a| == |b|;
    assert s[..|a|] == a && t[..|a|] == b && s[|a| + 1..] == x && t[|a| + 1..] == y;
  }

  /**
   Groups that are displayed differently, without a pipe in the text, never tie:
   for them the clause is exactly sort-all-then-truncate.
   */
  lemma DisplayedApartIsExact(g: Grouping, name: string, descending: bool, rows: seq<Row>, n: nat, out: seq<Row>)
    requires forall i | 0 <= i < |rows| :: PipeFree(Fragments(g, rows[i]))
    requires forall i, j | 0 <= i < j < |rows| :: Fragments(g, rows[i]) != Fragments(g, rows[j])
    requires TopRows(RowOrder(g, name, descending), rows, n, out)
    ensures out == SortAll(RowOrder(g, name, descending), rows, n)
  {
    forall i, j | 0 <= i < j < |rows| ensures TieKey(g, rows[i]) != TieKey(g, rows[j]) {
      if TieKey(g, rows[i]) == TieKey(g, rows[j]) { JoinInjective(Fragments(g, rows[i]), Fragments(g, rows[j])); }
    }
    assert KeysDiffer(g, rows);
    DistinctKeysNeverTie(g, name, descending, rows, n);
    TopIsSortedPrefixIff(g, name, descending, rows, n);
  }

  // ─── Groups that do tie ────────────────────────────────────────────────────

  /** Two different rows that compare equal can each come out on top. */
  lemma TiedRowsBothWin(g: Grouping, name: string, descending: bool, a: Row, b: Row)
    requires RowOrder(g, name, descending)(a, b) == Equal
    ensures var cmp := RowOrder(g, name, descending);
            TopRows(cmp, [a, b], 1, [a]) && TopRows(cmp, [a, b], 1, [b])
  {
    var cmp := RowOrder(g, name, descending);
    RowOrderIsTotal(g, name, descending);
    assert cmp(b, a) == cmp(a, b).Reverse();
    var p, q := [a, b], [b, a];
    assert multiset(p) == multiset(q);
    assert Selected(cmp, [a, b], 1, p) && Selected(cmp, [a, b], 1, q);
    SortOfSorted(cmp, [a]);
    SortOfSorted(cmp, [b]);
    assert p[..1] == [a] && q[..1] == [b];
  }

  function GroupRow(g: seq<Byte>, h: seq<Byte>): Row {
    map["g" := Text(g), "h" := Text(h), "n" := Int(1)]
  }

  lemma GroupRowKey(g: Grouping, x: seq<Byte>, y: seq<Byte>)
    requires g.fields == ["g", "h"]
    ensures TieKey(g, GroupRow(x, y)) == [QUOTE] + x + [QUOTE, PIPE, QUOTE] + y + [QUOTE]
  {
    var u, v := [QUOTE] + x + [QUOTE], [QUOTE] + y + [QUOTE];
    assert Fragments(g, GroupRow(x, y)) == [u, v];
    assert [u, v][1..] == [v];
    assert Join([u, v]) == u + ([PIPE] + v);
  }

  /** Two groups of texts that are displayed alike, with the same metric: either may be the one returned. */
  lemma DisplayedAlikeTie(g: Grouping, descending: bool, x: seq<Byte>, y: seq<Byte>, u: seq<Byte>, v: seq<Byte>)
    requires g.fields == ["g", "h"]
    requires [QUOTE] + x + [QUOTE, PIPE, QUOTE] + y + [QUOTE] == [QUOTE] + u + [QUOTE, PIPE, QUOTE] + v + [QUOTE]
    ensures var a, b, cmp := GroupRow(x, y), GroupRow(u, v), RowOrder(g, "n", descending);
            TopRows(cmp, [a, b], 1, [a]) && TopRows(cmp, [a, b], 1, [b])
  {
    GroupRowKey(g, x, y);
    GroupRowKey(g, u, v);
    CmpEqual(TieKey(g, GroupRow(x, y)), TieKey(g, GroupRow(u, v)));
    TiedRowsBothWin(g, "n", descending, GroupRow(x, y), GroupRow(u, v));
  }

  /**
   The groups (`a"|"b`, `c`) and (`a`, `b"|"c`) are both displayed as
   `"a"|"b"|"c"`: with the same metric, TAKE 1 may return either.
   */
  lemma QuotedPipesTie(g: Grouping, descending: bool)
    requires g.fields == ["g", "h"]
    ensures var a := GroupRow([0x61, QUOTE, PIPE, QUOTE, 0x62], [0x63]);
            var b := GroupRow([0x61], [0x62, QUOTE, PIPE, QUOTE, 0x63]);
            var cmp := RowOrder(g, "n", descending);
            a != b && TopRows(cmp, [a, b], 1, [a]) && TopRows(cmp, [a, b], 1, [b])
  {
    var x, u := [0x61, QUOTE, PIPE, QUOTE, 0x62], [0x62, QUOTE, PIPE, QUOTE, 0x63];
    assert GroupRow(x, [0x63])["g"] != GroupRow([0x61], u)["g"];
    assert [QUOTE] + x + [QUOTE, PIPE, QUOTE] + [0x63] + [QUOTE]
           == [QUOTE] + [0x61] + [QUOTE, PIPE, QUOTE] + u + [QUOTE];
    DisplayedAlikeTie(g, descending, x, [0x63], [0x61], u);
  }

  /** Grouped by one field, Int 1 and the double 1.0 are both displayed as `1`. */
  lemma NumbersTie(g: Grouping, descending: bool)
    requires g.fields == ["g"] && g.render(Float(0x3FF0_0000_0000_0000)) == [0x31]
    ensures var a: Row := map["g" := Int(1), "n" := Int(1)];
            var b: Row := map["g" := Float(0x3FF0_0000_0000_0000), "n" := Int(1)];
            var cmp := RowOrder(g, "n", descending);
            a != b && TopRows(cmp, [a, b], 1, [a]) && TopRows(cmp, [a, b], 1, [b])
  {
    var a: Row, b: Row := map["g" := Int(1), "n" := Int(1)], map["g" := Float(0x3FF0_0000_0000_0000), "n" := Int(1)];
    assert a["g"] != b["g"];
    assert Fragments(g, a) == [[0x31]] == Fragments(g, b);
    CmpEqual([0x31], [0x31]);
    TiedRowsBothWin(g, "n", descending, a, b);
  }
}
