/** Generic facts about permutations and selections, kept apart from the model. */
module Sequences {

  lemma MultisetSplit<T>(a: seq<T>, x: T, b: seq<T>)
    ensures multiset(a + ([x] + b)) == multiset(a + b) + multiset{x}
  {
    assert multiset([x] + b) == multiset{x} + multiset(b);
    assert multiset(a + ([x] + b)) == multiset(a) + multiset([x] + b);
  }

  lemma MultisetCancel<T>(a: multiset<T>, b: multiset<T>, x: T)
    requires a + multiset{x} == b + multiset{x}
    ensures a == b
  {
    assert (a + multiset{x}) - multiset{x} == a;
    assert (b + multiset{x}) - multiset{x} == b;
  }

  /** Where a permutation put the last element, and what remains without it. */
  lemma RemoveOne<T>(xs: seq<T>, ys: seq<T>) returns (j: nat)
    requires xs != [] && multiset(xs) == multiset(ys)
    ensures j < |ys| && ys[j] == xs[|xs| - 1]
    ensures multiset(xs[..|xs| - 1]) == multiset(ys[..j] + ys[j + 1..])
    ensures ys == ys[..j] + ([ys[j]] + ys[j + 1..])
  {
    var front, last := xs[..|xs| - 1], xs[|xs| - 1];
    assert xs == front + [last];
    assert last in multiset(ys);
    j :| 0 <= j < |ys| && ys[j] == last;
    assert ys == ys[..j] + ([ys[j]] + ys[j + 1..]);
    MultisetSplit(ys[..j], last, ys[j + 1..]);
    MultisetCancel(multiset(front), multiset(ys[..j] + ys[j + 1..]), last);
  }

  /** The elements that satisfy `p`, in order. */
  function Keep<T>(xs: seq<T>, p: T -> bool): seq<T> {
    if xs == [] then [] else Keep(xs[..|xs| - 1], p) + (if p(xs[|xs| - 1]) then [xs[|xs| - 1]] else [])
  }

  /** A narrower test keeps the same elements exactly when it drops none. */
  lemma {:induction false} KeepFewer<T>(xs: seq<T>, p: T -> bool, q: T -> bool)
    requires forall x | x in xs :: p(x) ==> q(x)
    ensures |Keep(xs, p)| <= |Keep(xs, q)|
    ensures |Keep(xs, p)| == |Keep(xs, q)| <==> Keep(xs, p) == Keep(xs, q)
    ensures Keep(xs, p) == Keep(xs, q) <==> forall x | x in xs :: q(x) ==> p(x)
  {
    if xs != [] {
      var front, last := xs[..|xs| - 1], xs[|xs| - 1];
      assert xs == front + [last];
      KeepFewer(front, p, q);
    }
  }

  /** Keeping twice is keeping what passes both tests. */
  lemma {:induction false} KeepTwice<T>(xs: seq<T>, p: T -> bool, q: T -> bool, both: T -> bool)
    requires forall x | x in xs :: both(x) <==> p(x) && q(x)
    ensures Keep(Keep(xs, p), q) == Keep(xs, both)
  {
    if xs != [] {
      var front, last := xs[..|xs| - 1], xs[|xs| - 1];
      assert xs == front + [last];
      KeepTwice(front, p, q, both);
      if p(last) {
        var kept := Keep(front, p) + [last];
        assert kept[..|kept| - 1] == Keep(front, p) && kept[|kept| - 1] == last;
        assert Keep(xs, p) == kept;
      } else {
        assert Keep(xs, p) == Keep(front, p);
      }
    }
  }

  lemma {:induction false} KeepCounts<T>(xs: seq<T>, p: T -> bool, x: T)
    ensures multiset(Keep(xs, p))[x] == if p(x) then multiset(xs)[x] else 0
  {
    if xs != [] {
      var front, last := xs[..|xs| - 1], xs[|xs| - 1];
      assert xs == front + [last];
      KeepCounts(front, p, x);
    }
  }

  lemma SelectionCounts<T>(xs: seq<T>, ys: seq<T>, p: T -> bool, q: T -> bool, x: T)
    requires multiset(ys) == multiset(Keep(xs, p))
    ensures multiset(Keep(ys, q))[x] == if p(x) && q(x) then multiset(xs)[x] else 0
  {
    KeepCounts(ys, q, x);
    KeepCounts(xs, p, x);
  }

  lemma DiffersAt<T>(a: multiset<T>, b: multiset<T>) returns (x: T)
    requires a != b
    ensures a[x] != b[x]
  {
    x :| a[x] != b[x];
  }

  lemma SelectionDiffers<T>(xs: seq<T>, ys: seq<T>, p: T -> bool, q: T -> bool, r: T -> bool, x: T)
    requires multiset(ys) == multiset(Keep(xs, p))
    ensures multiset(Keep(ys, q))[x] == multiset(Keep(xs, r))[x] <==> x !in xs || (p(x) && q(x) <==> r(x))
  {
    SelectionCounts(xs, ys, p, q, x);
    KeepCounts(xs, r, x);
    assert x in multiset(xs) <==> x in xs;
  }

  /**
   Selecting by `q` from any listing of what `p` kept is selecting by `r` exactly
   when `p` and `q` together are `r`.
   */
  lemma SameSelection<T>(xs: seq<T>, ys: seq<T>, p: T -> bool, q: T -> bool, r: T -> bool)
    requires multiset(ys) == multiset(Keep(xs, p))
    ensures multiset(Keep(ys, q)) == multiset(Keep(xs, r)) <==> forall x | x in xs :: p(x) && q(x) <==> r(x)
  {
    if multiset(Keep(ys, q)) == multiset(Keep(xs, r)) {
      forall x | x in xs ensures p(x) && q(x) <==> r(x) { SelectionDiffers(xs, ys, p, q, r, x); }
    } else {
      var x := DiffersAt(multiset(Keep(ys, q)), multiset(Keep(xs, r)));
      SelectionDiffers(xs, ys, p, q, r, x);
    }
  }

  /** Selecting goes left to right: what a prefix keeps starts what the whole keeps. */
  lemma {:induction false} KeepPrefix<T>(xs: seq<T>, p: T -> bool, i: nat)
    requires i <= |xs|
    ensures Keep(xs[..i], p) <= Keep(xs, p)
  {
    if i == |xs| {
      assert xs[..i] == xs;
    } else {
      KeepPrefix(xs[..|xs| - 1], p, i);
      assert xs[..|xs| - 1][..i] == xs[..i];
    }
  }

  /** What is kept stays in order. */
  lemma {:induction false} KeepInOrder<T>(xs: seq<T>, p: T -> bool, ordered: (T, T) -> bool)
    requires forall i, j | 0 <= i < j < |xs| :: ordered(xs[i], xs[j])
    ensures forall i, j | 0 <= i < j < |Keep(xs, p)| :: ordered(Keep(xs, p)[i], Keep(xs, p)[j])
  {
    if xs != [] {
      var front, last := xs[..|xs| - 1], xs[|xs| - 1];
      KeepInOrder(front, p, ordered);
      forall x | x in Keep(front, p) ensures ordered(x, last) {
        KeepCounts(front, p, x);
        assert x in multiset(Keep(front, p)) && x in multiset(front);
        var i :| 0 <= i < |front| && front[i] == x;
        assert xs[i] == x;
      }
    }
  }

  function First<T>(xs: seq<T>, n: nat): seq<T> {
    if n < |xs| then xs[..n] else xs
  }

  lemma KeepNext<T>(xs: seq<T>, p: T -> bool, i: nat)
    requires i < |xs|
    ensures Keep(xs[..i + 1], p) == Keep(xs[..i], p) + (if p(xs[i]) then [xs[i]] else [])
  {
    assert xs[..i + 1][..i] == xs[..i];
  }

  /** Once n are kept they are the first n. */
  lemma KeptEnough<T>(xs: seq<T>, p: T -> bool, i: nat)
    requires i <= |xs|
    ensures First(Keep(xs, p), |Keep(xs[..i], p)|) == Keep(xs[..i], p)
  {
    KeepPrefix(xs, p, i);
  }
}
