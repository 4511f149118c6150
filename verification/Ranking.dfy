/**
 Sorting and selection under a comparator: the stable sort, what a partial
 selection guarantees, and when a selected prefix is the sorted prefix.
 */
module Ranking {
  import opened Bytes

  type Comparator<!T> = (T, T) -> Ordering

  ghost predicate TotalPreorder<T(!new)>(cmp: Comparator<T>) {
    && (forall a, b :: cmp(b, a) == cmp(a, b).Reverse())
    && (forall a, b, c :: cmp(a, b) != Greater && cmp(b, c) != Greater ==> cmp(a, c) != Greater)
  }

  predicate Sorted<T>(cmp: Comparator<T>, xs: seq<T>) {
    forall i, j | 0 <= i < j < |xs| :: cmp(xs[i], xs[j]) != Greater
  }

  // ─── The stable sort ───────────────────────────────────────────────────────

  /** Put `x` behind every element it does not precede. */
  function Insert<T>(cmp: Comparator<T>, xs: seq<T>, x: T): (r: seq<T>)
    ensures |r| == |xs| + 1
  {
    if xs != [] && cmp(xs[|xs| - 1], x) == Greater then Insert(cmp, xs[..|xs| - 1], x) + [xs[|xs| - 1]]
    else xs + [x]
  }

  /** `sort_by`: stable. */
  function SortBy<T>(cmp: Comparator<T>, xs: seq<T>): (r: seq<T>)
    ensures |r| == |xs|
  {
    if xs == [] then [] else Insert(cmp, SortBy(cmp, xs[..|xs| - 1]), xs[|xs| - 1])
  }

  lemma {:induction false} InsertPermutes<T>(cmp: Comparator<T>, xs: seq<T>, x: T)
    ensures multiset(Insert(cmp, xs, x)) == multiset(xs) + multiset{x}
  {
    if xs != [] {
      InsertPermutes(cmp, xs[..|xs| - 1], x);
      assert xs == xs[..|xs| - 1] + [xs[|xs| - 1]];
    }
  }

  lemma {:induction false} SortPermutes<T>(cmp: Comparator<T>, xs: seq<T>)
    ensures multiset(SortBy(cmp, xs)) == multiset(xs)
  {
    if xs != [] {
      var front, last := xs[..|xs| - 1], xs[|xs| - 1];
      assert xs == front + [last];
      assert multiset(xs) == multiset(front) + multiset{last};
      SortPermutes(cmp, front);
      InsertPermutes(cmp, SortBy(cmp, front), last);
    }
  }

  /** Appending something no element exceeds keeps order. */
  lemma SortedAppend<T(!new)>(cmp: Comparator<T>, xs: seq<T>, x: T)
    requires Sorted(cmp, xs) && forall i | 0 <= i < |xs| :: cmp(xs[i], x) != Greater
    ensures Sorted(cmp, xs + [x])
  {
  }

  lemma {:induction false} InsertSorts<T(!new)>(cmp: Comparator<T>, xs: seq<T>, x: T)
    requires TotalPreorder(cmp) && Sorted(cmp, xs)
    ensures Sorted(cmp, Insert(cmp, xs, x))
  {
    if xs != [] {
      var front, last := xs[..|xs| - 1], xs[|xs| - 1];
      if cmp(last, x) == Greater {
        InsertSorts(cmp, front, x);
        InsertPermutes(cmp, front, x);
        var r := Insert(cmp, front, x);
        forall i | 0 <= i < |r| ensures cmp(r[i], last) != Greater {
          assert r[i] in multiset(r);
          assert r[i] == x || r[i] in multiset(front);
          assert cmp(last, x) == cmp(x, last).Reverse();
        }
        SortedAppend(cmp, r, last);
      } else {
        forall i | 0 <= i < |xs| ensures cmp(xs[i], x) != Greater {
          assert i < |xs| - 1 ==> cmp(xs[i], last) != Greater;
        }
        SortedAppend(cmp, xs, x);
      }
    }
  }

  lemma {:induction false} SortSorts<T(!new)>(cmp: Comparator<T>, xs: seq<T>)
    requires TotalPreorder(cmp)
    ensures Sorted(cmp, SortBy(cmp, xs))
  {
    if xs != [] {
      SortSorts(cmp, xs[..|xs| - 1]);
      InsertSorts(cmp, SortBy(cmp, xs[..|xs| - 1]), xs[|xs| - 1]);
    }
  }

  /** Sorting what is sorted changes nothing. */
  lemma {:induction false} SortOfSorted<T>(cmp: Comparator<T>, xs: seq<T>)
    requires Sorted(cmp, xs)
    ensures SortBy(cmp, xs) == xs
  {
    if xs != [] {
      SortOfSorted(cmp, xs[..|xs| - 1]);
      assert xs == xs[..|xs| - 1] + [xs[|xs| - 1]];
    }
  }

  // ─── Partial selection ─────────────────────────────────────────────────────

  /** What `select_nth_unstable_by(n)` promises: position n is in place, smaller before, larger behind. */
  ghost predicate Selected<T>(cmp: Comparator<T>, xs: seq<T>, n: nat, p: seq<T>) {
    && multiset(p) == multiset(xs) && |p| == |xs| && n < |p|
    && (forall i | 0 <= i < n :: cmp(p[i], p[n]) != Greater)
    && (forall j | n < j < |p| :: cmp(p[n], p[j]) != Greater)
  }

  /** Elements that compare equal to one of the first n are that element. */
  predicate NoTiesUpTo<T(==)>(cmp: Comparator<T>, s: seq<T>, n: nat) {
    forall i, j | 0 <= i < j < |s| && i < n :: cmp(s[i], s[j]) == Equal ==> s[i] == s[j]
  }

  lemma SortedTail<T>(cmp: Comparator<T>, s: seq<T>)
    requires Sorted(cmp, s) && s != []
    ensures Sorted(cmp, s[1..])
  {
  }

  lemma NoTiesTail<T>(cmp: Comparator<T>, s: seq<T>, n: nat)
    requires NoTiesUpTo(cmp, s, n) && s != [] && n > 0
    ensures NoTiesUpTo(cmp, s[1..], n - 1)
  {
  }

  lemma SameTails<T>(s: seq<T>, t: seq<T>)
    requires s != [] && t != [] && s[0] == t[0] && multiset(s) == multiset(t)
    ensures multiset(s[1..]) == multiset(t[1..])
  {
    assert s == [s[0]] + s[1..] && t == [t[0]] + t[1..];
    assert multiset(s[1..]) == multiset(s) - multiset{s[0]};
    assert multiset(t[1..]) == multiset(t) - multiset{t[0]};
  }

  /** Two sorted arrangements agree on the first n places when nothing there ties with a different element. */
  lemma {:induction false} SortedPrefixUnique<T(!new)>(cmp: Comparator<T>, s: seq<T>, t: seq<T>, n: nat)
    requires TotalPreorder(cmp) && Sorted(cmp, s) && Sorted(cmp, t) && multiset(s) == multiset(t)
    requires |s| == |t| && n <= |s| && NoTiesUpTo(cmp, s, n)
    ensures s[..n] == t[..n]
    decreases n
  {
    if n > 0 {
      HeadsEqual(cmp, s, t, n);
      SameTails(s, t);
      SortedTail(cmp, s);
      SortedTail(cmp, t);
      NoTiesTail(cmp, s, n);
      SortedPrefixUnique(cmp, s[1..], t[1..], n - 1);
      assert s[..n] == [s[0]] + s[1..][..n - 1] && t[..n] == [t[0]] + t[1..][..n - 1];
    }
  }

  lemma HeadsEqual<T(!new)>(cmp: Comparator<T>, s: seq<T>, t: seq<T>, n: nat)
    requires TotalPreorder(cmp) && Sorted(cmp, s) && Sorted(cmp, t) && multiset(s) == multiset(t)
    requires |s| == |t| && 0 < n <= |s| && NoTiesUpTo(cmp, s, n)
    ensures s[0] == t[0]
  {
    assert t[0] in multiset(s) && s[0] in multiset(t);
    var j :| 0 <= j < |s| && s[j] == t[0];
    var k :| 0 <= k < |t| && t[k] == s[0];
    assert j > 0 ==> cmp(s[0], t[0]) != Greater;
    assert k > 0 ==> cmp(t[0], s[0]) != Greater;
    assert cmp(t[0], s[0]) == cmp(s[0], t[0]).Reverse();
  }

  /** The first n of a selection, sorted, then the rest, sorted: one sorted arrangement of everything. */
  lemma SelectionSorts<T(!new)>(cmp: Comparator<T>, xs: seq<T>, n: nat, p: seq<T>)
    requires TotalPreorder(cmp) && Selected(cmp, xs, n, p)
    ensures var t := SortBy(cmp, p[..n]) + SortBy(cmp, p[n..]);
            Sorted(cmp, t) && multiset(t) == multiset(xs) && t[..n] == SortBy(cmp, p[..n])
  {
    var a, b := SortBy(cmp, p[..n]), SortBy(cmp, p[n..]);
    SortSorts(cmp, p[..n]);
    SortSorts(cmp, p[n..]);
    SortPermutes(cmp, p[..n]);
    SortPermutes(cmp, p[n..]);
    assert p == p[..n] + p[n..];
    forall i, j | 0 <= i < |a| && 0 <= j < |b| ensures cmp(a[i], b[j]) != Greater {
      AcrossTheCut(cmp, xs, n, p, a[i], b[j]);
    }
    SortedConcat(cmp, a, b);
  }

  lemma AcrossTheCut<T(!new)>(cmp: Comparator<T>, xs: seq<T>, n: nat, p: seq<T>, x: T, y: T)
    requires TotalPreorder(cmp) && Selected(cmp, xs, n, p)
    requires x in SortBy(cmp, p[..n]) && y in SortBy(cmp, p[n..])
    ensures cmp(x, y) != Greater
  {
    SortPermutes(cmp, p[..n]);
    SortPermutes(cmp, p[n..]);
    assert x in multiset(p[..n]) && y in multiset(p[n..]);
    var i :| 0 <= i < n && p[i] == x;
    var j :| n <= j < |p| && p[j] == y;
    assert cmp(p[n], p[n]) == cmp(p[n], p[n]).Reverse();
    assert cmp(x, p[n]) != Greater && cmp(p[n], y) != Greater;
  }

  lemma SortedConcat<T>(cmp: Comparator<T>, a: seq<T>, b: seq<T>)
    requires Sorted(cmp, a) && Sorted(cmp, b)
    requires forall i, j | 0 <= i < |a| && 0 <= j < |b| :: cmp(a[i], b[j]) != Greater
    ensures Sorted(cmp, a + b)
  {
    forall i, j | 0 <= i < j < |a + b| ensures cmp((a + b)[i], (a + b)[j]) != Greater {
      if i < |a| && j >= |a| { assert cmp(a[i], b[j - |a|]) != Greater; }
    }
  }

  /** Swapping two elements that compare equal keeps a sequence sorted. */
  lemma SwapTies<T(!new)>(cmp: Comparator<T>, s: seq<T>, i: nat, j: nat)
    requires TotalPreorder(cmp) && Sorted(cmp, s) && i < j < |s| && cmp(s[i], s[j]) == Equal
    ensures Sorted(cmp, s[i := s[j]][j := s[i]])
  {
    var t := s[i := s[j]][j := s[i]];
    forall a, b | 0 <= a < b < |t| ensures cmp(t[a], t[b]) != Greater {
      TieStays(cmp, s, i, j, a, b);
    }
  }

  lemma TieStays<T(!new)>(cmp: Comparator<T>, s: seq<T>, i: nat, j: nat, a: nat, b: nat)
    requires TotalPreorder(cmp) && Sorted(cmp, s) && i < j < |s| && cmp(s[i], s[j]) == Equal && a < b < |s|
    ensures var t := s[i := s[j]][j := s[i]]; cmp(t[a], t[b]) != Greater
  {
    var t := s[i := s[j]][j := s[i]];
    assert cmp(s[j], s[i]) == cmp(s[i], s[j]).Reverse();
    assert cmp(t[a], s[a]) != Greater by { Reflexive(cmp, s[a]); }
    assert cmp(s[b], t[b]) != Greater by { Reflexive(cmp, s[b]); }
    assert cmp(s[a], s[b]) != Greater;
    assert cmp(t[a], s[b]) != Greater;
  }

  lemma Reflexive<T(!new)>(cmp: Comparator<T>, x: T)
    requires TotalPreorder(cmp)
    ensures cmp(x, x) == Equal
  {
    assert cmp(x, x) == cmp(x, x).Reverse();
  }

  lemma {:induction false} SortedIsSelected<T>(cmp: Comparator<T>, xs: seq<T>, n: nat, s: seq<T>)
    requires Sorted(cmp, s) && multiset(s) == multiset(xs) && |s| == |xs| && n < |s|
    ensures Selected(cmp, xs, n, s)
  {
  }

  /**
   Selecting, truncating and sorting the survivors gives the first n of the fully
   sorted input, whatever the selection does inside its contract, exactly when
   none of those first n ties with a different element.
   */
  lemma SelectThenSortIff<T(!new)>(cmp: Comparator<T>, xs: seq<T>, n: nat)
    requires TotalPreorder(cmp) && n < |xs|
    ensures (forall p | Selected(cmp, xs, n, p) :: SortBy(cmp, p[..n]) == SortBy(cmp, xs)[..n])
            <==> NoTiesUpTo(cmp, SortBy(cmp, xs), n)
  {
    var s := SortBy(cmp, xs);
    SortSorts(cmp, xs);
    SortPermutes(cmp, xs);
    if NoTiesUpTo(cmp, s, n) {
      forall p | Selected(cmp, xs, n, p) ensures SortBy(cmp, p[..n]) == s[..n] {
        SelectionSorts(cmp, xs, n, p);
        SortedPrefixUnique(cmp, s, SortBy(cmp, p[..n]) + SortBy(cmp, p[n..]), n);
      }
    } else {
      var p := TieMatters(cmp, xs, n);
      assert Selected(cmp, xs, n, p);
    }
  }

  lemma SortedTake<T>(cmp: Comparator<T>, s: seq<T>, n: nat)
    requires Sorted(cmp, s) && n <= |s|
    ensures Sorted(cmp, s[..n])
  {
  }

  lemma SwapPermutes<T>(s: seq<T>, i: nat, j: nat)
    requires i < j < |s|
    ensures multiset(s[i := s[j]][j := s[i]]) == multiset(s)
  {
  }

  /** A sorted arrangement is one the selection may return, and sorting its first n keeps them. */
  lemma SortedOutcome<T>(cmp: Comparator<T>, xs: seq<T>, n: nat, p: seq<T>)
    requires Sorted(cmp, p) && multiset(p) == multiset(xs) && |p| == |xs| && n < |p|
    ensures Selected(cmp, xs, n, p) && SortBy(cmp, p[..n]) == p[..n]
  {
    SortedIsSelected(cmp, xs, n, p);
    SortedTake(cmp, p, n);
    SortOfSorted(cmp, p[..n]);
  }

  lemma TieOutcome<T(!new)>(cmp: Comparator<T>, xs: seq<T>, s: seq<T>, n: nat, i: nat, j: nat)
    requires TotalPreorder(cmp) && Sorted(cmp, s) && multiset(s) == multiset(xs) && |s| == |xs|
    requires i < j < |s| && i < n < |s| && cmp(s[i], s[j]) == Equal && s[i] != s[j]
    ensures var p := s[i := s[j]][j := s[i]]; Selected(cmp, xs, n, p) && SortBy(cmp, p[..n]) != s[..n]
  {
    var p := s[i := s[j]][j := s[i]];
    SwapTies(cmp, s, i, j);
    SwapPermutes(s, i, j);
    SortedOutcome(cmp, xs, n, p);
    assert p[..n][i] != s[..n][i];
  }

  lemma TieMatters<T(!new)>(cmp: Comparator<T>, xs: seq<T>, n: nat) returns (p: seq<T>)
    requires TotalPreorder(cmp) && n < |xs| && !NoTiesUpTo(cmp, SortBy(cmp, xs), n)
    ensures Selected(cmp, xs, n, p) && SortBy(cmp, p[..n]) != SortBy(cmp, xs)[..n]
  {
    var s := SortBy(cmp, xs);
    var i, j :| 0 <= i < j < |s| && i < n && cmp(s[i], s[j]) == Equal && s[i] != s[j];
    SortSorts(cmp, xs);
    SortPermutes(cmp, xs);
    TieOutcome(cmp, xs, s, n, i, j);
    p := s[i := s[j]][j := s[i]];
  }
}
