/**
 ORDER BY as the primary scan does it: the comparator on resolved values, the
 bounded heap that keeps the first n rows, and exactly which values the ghosts'
 sort keys order otherwise.
 */
module QueryOrder {
  import opened Bytes
  import opened Ranking
  import opened Sequences
  import opened SortKeys
  import opened Values

  // ─── The comparator ────────────────────────────────────────────────────────

  /** `partial_cmp(..).unwrap_or(Equal)`. */
  function OrEqual(o: Option<Ordering>): Ordering {
    if o.Some? then o.value else Ordering.Equal
  }

  /** Nulls last, numbers by value, other types among themselves; any other pair ties. */
  function CompareInner(a: Value, b: Value): Ordering {
    match (a, b)
    case (Null, Null) => Ordering.Equal
    case (Null, _) => Greater
    case (_, Null) => Less
    case _ => OrEqual(PartialCmp(a, b))
  }

  /** `compare_values`: a missing value comes first. */
  function CompareValues(a: Option<Value>, b: Option<Value>): Ordering {
    match (a, b)
    case (None, None) => Ordering.Equal
    case (None, Some(_)) => Less
    case (Some(_), None) => Greater
    case (Some(x), Some(y)) => CompareInner(x, y)
  }

  lemma PartialFlip(a: Value, b: Value)
    ensures PartialCmp(b, a).Some? <==> PartialCmp(a, b).Some?
    ensures PartialCmp(a, b).Some? ==> PartialCmp(b, a).value == PartialCmp(a, b).value.Reverse()
  {
    if a.Text? && b.Text? { CmpFlip(a.s, b.s); }
  }

  lemma CompareFlip(a: Option<Value>, b: Option<Value>)
    ensures CompareValues(b, a) == CompareValues(a, b).Reverse()
  {
    if a.Some? && b.Some? { PartialFlip(a.value, b.value); }
  }

  lemma SortCmpFlip(a: Option<Value>, b: Option<Value>)
    ensures SortCmp(b, a) == SortCmp(a, b).Reverse()
  {
    if a.Some? && b.Some? && a.value.Text? && b.value.Text? { CmpFlip(a.value.s, b.value.s); }
  }

  // ─── Sort keys against the comparator ──────────────────────────────────────

  /** An integer above a double, which sort keys put before it. */
  predicate IntAboveFloat(a: Option<Value>, b: Option<Value>) {
    && a.Some? && b.Some? && a.value.Int? && b.value.Float?
    && F64Cmp(IntToF64(a.value.i), b.value.f) == Some(Greater)
  }

  /** Null beside a missing field or beside any other value. */
  predicate NullBeside(a: Option<Value>, b: Option<Value>) {
    a == Some(Null) && b != Some(Null)
  }

  /** Two different timestamps or booleans: sort keys do not tell them apart. */
  predicate Untold(a: Option<Value>, b: Option<Value>) {
    a.Some? && b.Some? && a != b
    && ((a.value.Timestamp? && b.value.Timestamp?) || (a.value.Bool? && b.value.Bool?))
  }

  /** The values that the sort keys may list against ORDER BY. */
  predicate Clash(a: Option<Value>, b: Option<Value>) {
    NullBeside(a, b) || NullBeside(b, a) || IntAboveFloat(a, b) || IntAboveFloat(b, a) || Untold(a, b)
  }

  /** The keys of `a` may come before those of `b`, and the query wants `b` first. */
  predicate ListedAgainst(a: Option<Value>, b: Option<Value>) {
    SortCmp(a, b) != Greater && CompareValues(a, b) == Greater
  }

  lemma FloatsAgree(f: F64, g: F64)
    ensures F64Cmp(f, g) == Some(Greater) ==> IntCmp(TotalRank(f), TotalRank(g)) == Greater
  {
    if F64Cmp(f, g) == Some(Greater) { TotalRankAgrees(f, g); }
  }

  /** Sort keys may list two values against ORDER BY exactly when they clash. */
  lemma ClashIff(a: Option<Value>, b: Option<Value>)
    ensures Clash(a, b) <==> ListedAgainst(a, b) || ListedAgainst(b, a)
  {
    CompareFlip(a, b);
    SortCmpFlip(a, b);
    if a.Some? && b.Some? && a.value.Float? && b.value.Float? {
      FloatsAgree(a.value.f, b.value.f);
      FloatsAgree(b.value.f, a.value.f);
    }
  }

  // ─── The first n of an order ───────────────────────────────────────────────

  /** `out` holds n of the rows, in order, and nothing that is left out belongs before any of it. */
  ghost predicate RightTop<T(!new)>(cmp: Comparator<T>, rows: seq<T>, n: nat, out: seq<T>) {
    && |out| == (if n < |rows| then n else |rows|)
    && multiset(out) <= multiset(rows) && Sorted(cmp, out)
    && (forall x, y | x in out && y in multiset(rows) - multiset(out) :: cmp(x, y) != Greater)
  }

  lemma SameWhenAll<T>(a: multiset<T>, b: multiset<T>)
    requires a <= b && |a| == |b|
    ensures a == b
  {
    assert b == a + (b - a);
  }

  lemma RightPrefix<T(!new)>(cmp: Comparator<T>, rows: seq<T>, s: seq<T>, n: nat)
    requires multiset(s) == multiset(rows) && Sorted(cmp, s)
    ensures RightTop(cmp, rows, n, First(s, n))
  {
    assert |multiset(s)| == |s| && |multiset(rows)| == |rows|;
    if n < |s| {
      assert s == s[..n] + s[n..];
      assert multiset(rows) - multiset(s[..n]) == multiset(s[n..]);
      forall x, y | x in s[..n] && y in multiset(s[n..]) ensures cmp(x, y) != Greater {
        var i :| 0 <= i < n && s[i] == x;
        var j :| 0 <= j < |s[n..]| && s[n..][j] == y;
        assert s[n + j] == y;
      }
    }
  }

  /** Every prefix of `s` is a right top exactly when `s` is all the rows in order. */
  lemma RightPrefixesIff<T(!new)>(cmp: Comparator<T>, rows: seq<T>, s: seq<T>)
    ensures (forall n: nat :: RightTop(cmp, rows, n, First(s, n))) <==> multiset(s) == multiset(rows) && Sorted(cmp, s)
  {
    if multiset(s) == multiset(rows) && Sorted(cmp, s) {
      forall n: nat ensures RightTop(cmp, rows, n, First(s, n)) { RightPrefix(cmp, rows, s, n); }
    } else if RightTop(cmp, rows, |s| + |rows|, First(s, |s| + |rows|)) {
      assert |multiset(s)| == |s| && |multiset(rows)| == |rows|;
      SameWhenAll(multiset(s), multiset(rows));
    }
  }

  // ─── The bounded heap of the primary scan ──────────────────────────────────

  /** The comparator orders these rows totally. */
  ghost predicate TotalOn<T(!new)>(cmp: Comparator<T>, rows: seq<T>) {
    && (forall a, b | a in rows && b in rows :: cmp(b, a) == cmp(a, b).Reverse())
    && (forall a, b, c | a in rows && b in rows && c in rows ::
          cmp(a, b) != Greater && cmp(b, c) != Greater ==> cmp(a, c) != Greater)
  }

  /** What the heap holds after some rows: n of them, none of which belongs behind one given up. */
  ghost predicate Holding<T(!new)>(cmp: Comparator<T>, rows: seq<T>, n: nat, heap: seq<T>) {
    && |heap| == (if n < |rows| then n else |rows|) && multiset(heap) <= multiset(rows)
    && (forall x, y | x in heap && y in multiset(rows) - multiset(heap) :: cmp(x, y) != Greater)
  }

  predicate Greatest<T>(cmp: Comparator<T>, xs: seq<T>, k: nat)
    requires k < |xs|
  {
    forall j | 0 <= j < |xs| :: cmp(xs[j], xs[k]) != Greater
  }

  lemma {:induction false} SomeGreatest<T(!new)>(cmp: Comparator<T>, xs: seq<T>) returns (k: nat)
    requires TotalOn(cmp, xs) && xs != []
    ensures k < |xs| && Greatest(cmp, xs, k)
  {
    var n := |xs| - 1;
    assert cmp(xs[n], xs[n]) == cmp(xs[n], xs[n]).Reverse();
    if n == 0 {
      k := 0;
    } else {
      assert forall x | x in xs[..n] :: x in xs;
      k := SomeGreatest(cmp, xs[..n]);
      assert forall j | 0 <= j < n :: xs[..n][j] == xs[j];
      if cmp(xs[n], xs[k]) == Greater {
        assert cmp(xs[k], xs[n]) != Greater;
        k := n;
      }
    }
  }

  lemma SubTotal<T(!new)>(cmp: Comparator<T>, rows: seq<T>, part: seq<T>)
    requires TotalOn(cmp, rows) && multiset(part) <= multiset(rows)
    ensures TotalOn(cmp, part)
  {
    forall x | x in part ensures x in rows { assert x in multiset(part) && x in multiset(rows); }
  }

  lemma {:induction false} InsertSortsOn<T(!new)>(cmp: Comparator<T>, xs: seq<T>, x: T)
    requires TotalOn(cmp, xs + [x]) && Sorted(cmp, xs)
    ensures Sorted(cmp, Insert(cmp, xs, x))
  {
    if xs != [] {
      var front, last := xs[..|xs| - 1], xs[|xs| - 1];
      assert last in xs + [x] && x in xs + [x] && forall y | y in front + [x] :: y in xs + [x];
      if cmp(last, x) == Greater {
        InsertSortsOn(cmp, front, x);
        InsertPermutes(cmp, front, x);
        var r := Insert(cmp, front, x);
        forall i | 0 <= i < |r| ensures cmp(r[i], last) != Greater {
          assert r[i] in multiset(r);
          assert r[i] == x || r[i] in multiset(front);
        }
        SortedAppend(cmp, r, last);
      } else {
        forall i | 0 <= i < |xs| ensures cmp(xs[i], x) != Greater {
          assert xs[i] in xs + [x];
          assert i < |xs| - 1 ==> cmp(xs[i], last) != Greater;
        }
        SortedAppend(cmp, xs, x);
      }
    }
  }

  lemma {:induction false} SortSortsOn<T(!new)>(cmp: Comparator<T>, xs: seq<T>)
    requires TotalOn(cmp, xs)
    ensures Sorted(cmp, SortBy(cmp, xs))
  {
    if xs != [] {
      var front, last := xs[..|xs| - 1], xs[|xs| - 1];
      assert forall x | x in front :: x in xs;
      SortSortsOn(cmp, front);
      SortPermutes(cmp, front);
      assert multiset(SortBy(cmp, front) + [last]) == multiset(front + [last]) && xs == front + [last];
      SubTotal(cmp, xs, SortBy(cmp, front) + [last]);
      InsertSortsOn(cmp, SortBy(cmp, front), last);
    }
  }

  function Without<T>(xs: seq<T>, k: nat): seq<T>
    requires k < |xs|
  {
    xs[..k] + xs[k + 1..]
  }

  lemma WithoutOne<T>(xs: seq<T>, k: nat)
    requires k < |xs|
    ensures multiset(Without(xs, k)) == multiset(xs) - multiset{xs[k]}
  {
    assert xs == xs[..k] + [xs[k]] + xs[k + 1..];
  }

  /** Pushing a row and giving up a greatest one keeps the heap right. */
  lemma PushPop<T(!new)>(cmp: Comparator<T>, rows: seq<T>, n: nat, heap: seq<T>, r: T, k: nat)
    requires TotalOn(cmp, rows + [r]) && Holding(cmp, rows, n, heap) && |heap| == n
    requires k <= |heap| && Greatest(cmp, heap + [r], k)
    ensures Holding(cmp, rows + [r], n, Without(heap + [r], k))
  {
    var pushed := heap + [r];
    var p, kept, all := pushed[k], Without(pushed, k), multiset(rows + [r]);
    WithoutOne(pushed, k);
    assert all == multiset(rows) + multiset{r} && multiset(pushed) == multiset(heap) + multiset{r};
    forall x, y | x in kept && y in all - multiset(kept) ensures cmp(x, y) != Greater {
      assert x in multiset(kept) && x in multiset(pushed);
      var i :| 0 <= i < |pushed| && pushed[i] == x;
      assert cmp(x, p) != Greater;
      if y != p {
        assert y in multiset(rows) - multiset(heap);
        GivenUpStays(cmp, rows, n, heap, r, p, x, y);
      }
    }
  }

  lemma GivenUpStays<T(!new)>(cmp: Comparator<T>, rows: seq<T>, n: nat, heap: seq<T>, r: T, p: T, x: T, y: T)
    requires TotalOn(cmp, rows + [r]) && Holding(cmp, rows, n, heap)
    requires x in heap + [r] && p in heap + [r] && cmp(x, p) != Greater && y in multiset(rows) - multiset(heap)
    requires x in heap || p in heap
    ensures cmp(x, y) != Greater
  {
    assert x in multiset(heap) + multiset{r} && p in multiset(heap) + multiset{r};
    assert y in multiset(rows) && y in rows + [r] && x in rows + [r] && p in rows + [r] by {
      assert forall z :: z in multiset(heap) ==> z in multiset(rows);
    }
  }

  /** `BinaryHeap::pop`: removes some greatest element, if there is one. */
  method Pop<T(==)>(cmp: Comparator<T>, heap: seq<T>) returns (k: nat)
    requires heap != []
    ensures k < |heap|
    ensures (exists j | 0 <= j < |heap| :: Greatest(cmp, heap, j)) ==> Greatest(cmp, heap, k)
  {
    if exists j | 0 <= j < |heap| :: Greatest(cmp, heap, j) {
      k :| 0 <= k < |heap| && Greatest(cmp, heap, k);
    } else {
      k := 0;
    }
  }

  lemma PopsGreatest<T(!new)>(cmp: Comparator<T>, rows: seq<T>, heap: seq<T>)
    requires TotalOn(cmp, rows) && multiset(heap) <= multiset(rows) && heap != []
    ensures exists j | 0 <= j < |heap| :: Greatest(cmp, heap, j)
  {
    SubTotal(cmp, rows, heap);
    var k := SomeGreatest(cmp, heap);
  }

  lemma HoldingSorts<T(!new)>(cmp: Comparator<T>, rows: seq<T>, n: nat, heap: seq<T>)
    requires TotalOn(cmp, rows) && Holding(cmp, rows, n, heap)
    ensures RightTop(cmp, rows, n, SortBy(cmp, heap))
  {
    SubTotal(cmp, rows, heap);
    SortSortsOn(cmp, heap);
    SortPermutes(cmp, heap);
    forall x | x in SortBy(cmp, heap) ensures x in heap { assert x in multiset(SortBy(cmp, heap)); }
  }

  lemma AllHeld<T>(rows: seq<T>, heap: seq<T>)
    requires multiset(heap) <= multiset(rows) && |heap| == |rows|
    ensures multiset(heap) == multiset(rows)
  {
    assert |multiset(heap)| == |heap| && |multiset(rows)| == |rows|;
    SameWhenAll(multiset(heap), multiset(rows));
  }

  lemma JustPush<T(!new)>(cmp: Comparator<T>, rows: seq<T>, n: nat, heap: seq<T>, r: T)
    requires Holding(cmp, rows, n, heap) && |heap| < n
    ensures Holding(cmp, rows + [r], n, heap + [r])
  {
    AllHeld(rows, heap);
  }

  /** `heap.push(row)`, and `pop` when that is one too many. */
  method Push<T(!new, ==)>(cmp: Comparator<T>, ghost rows: seq<T>, n: nat, heap: seq<T>, r: T) returns (h: seq<T>)
    requires |heap| <= n
    ensures |h| <= n
    ensures TotalOn(cmp, rows + [r]) && Holding(cmp, rows, n, heap) ==> Holding(cmp, rows + [r], n, h)
  {
    h := heap + [r];
    ghost var right := TotalOn(cmp, rows + [r]) && Holding(cmp, rows, n, heap);
    if |h| <= n {
      if right { JustPush(cmp, rows, n, heap, r); }
      return;
    }
    if right { PopsGreatest(cmp, rows + [r], h); }
    var k := Pop(cmp, h);
    if right { PushPop(cmp, rows, n, heap, r, k); }
    h := Without(h, k);
  }

  /** Behind `i` rows the heap is right, if the rows are totally ordered. */
  ghost predicate RightSoFar<T(!new)>(cmp: Comparator<T>, rows: seq<T>, i: nat, n: nat, heap: seq<T>)
    requires i <= |rows|
  {
    TotalOn(cmp, rows) ==> Holding(cmp, rows[..i], n, heap)
  }

  lemma TotalPrefix<T(!new)>(cmp: Comparator<T>, rows: seq<T>, i: nat)
    requires i <= |rows| && TotalOn(cmp, rows)
    ensures TotalOn(cmp, rows[..i])
  {
    assert rows == rows[..i] + rows[i..];
    SubTotal(cmp, rows, rows[..i]);
  }

  lemma NextRow<T(!new)>(cmp: Comparator<T>, rows: seq<T>, i: nat, n: nat, heap: seq<T>, next: seq<T>)
    requires i < |rows| && RightSoFar(cmp, rows, i, n, heap)
    requires TotalOn(cmp, rows[..i] + [rows[i]]) && Holding(cmp, rows[..i], n, heap)
             ==> Holding(cmp, rows[..i] + [rows[i]], n, next)
    ensures RightSoFar(cmp, rows, i + 1, n, next)
  {
    assert rows[..i + 1] == rows[..i] + [rows[i]];
    if TotalOn(cmp, rows) { TotalPrefix(cmp, rows, i + 1); }
  }

  lemma Finished<T(!new)>(cmp: Comparator<T>, rows: seq<T>, n: nat, heap: seq<T>)
    requires RightSoFar(cmp, rows, |rows|, n, heap)
    ensures TotalOn(cmp, rows) ==> RightTop(cmp, rows, n, SortBy(cmp, heap))
  {
    assert rows[..|rows|] == rows;
    if TotalOn(cmp, rows) { HoldingSorts(cmp, rows, n, heap); }
  }

  /**
   The primary scan's top n: push each row, pop a greatest one when there are more
   than n, sort what remains. Which of several greatest rows is popped is left
   open; on rows the comparator does not order totally, so is everything.
   */
  method HeapTop<T(!new, ==)>(cmp: Comparator<T>, rows: seq<T>, n: nat) returns (out: seq<T>)
    ensures TotalOn(cmp, rows) ==> RightTop(cmp, rows, n, out)
  {
    var heap: seq<T> := [];
    for i := 0 to |rows|
      invariant |heap| <= n && RightSoFar(cmp, rows, i, n, heap)
    {
      var next := Push(cmp, rows[..i], n, heap, rows[i]);
      NextRow(cmp, rows, i, n, heap, next);
      heap := next;
    }
    Finished(cmp, rows, n, heap);
    out := SortBy(cmp, heap);
  }
}
