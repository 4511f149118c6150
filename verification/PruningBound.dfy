/**
 Over exact real arithmetic the pruned cosine is sound: what it gives up at a
 block boundary is strictly below the threshold, by the Cauchy–Schwarz inequality.
 */
module PruningBound {
  import opened Bytes
  import opened Values
  import opened Distance
  import opened VectorColumn

  /**
   Real arithmetic with a given reading of stored floats, square root and
   multiplication. Most of the proof needs nothing of the product.
   */
  function Exact(load: F32 -> real, sqrt: real -> real, mul: (real, real) -> real): Arith<real, real> {
    Arith(load, 0.0, (x: real, y: real) => x + y, mul, (x: real) => x,
          0.0, (x: real, y: real) => x + y, (x: real, y: real) => x - y, mul,
          (x: real, y: real) => if y == 0.0 then 0.0 else x / y,
          sqrt, (x: real) => if x < 0.0 then 0.0 else x, (x: real) => x == 0.0, (x: real, y: real) => x < y)
  }

  ghost predicate IsSqrt(sqrt: real -> real) {
    forall x: real | x >= 0.0 :: sqrt(x) >= 0.0 && sqrt(x) * sqrt(x) == x
  }

  ghost predicate IsProduct(mul: (real, real) -> real) {
    forall x: real, y: real :: mul(x, y) == x * y
  }

  /** The sum of products from `lo` up to `hi`. */
  function Sum(mul: (real, real) -> real, x: seq<real>, y: seq<real>, lo: nat, hi: nat): real
    requires |x| == |y| && lo <= hi <= |x|
  {
    if hi == lo then 0.0 else Sum(mul, x, y, lo, hi - 1) + mul(x[hi - 1], y[hi - 1])
  }

  // ─── The lanes add up ──────────────────────────────────────────────────────

  lemma {:induction false} SumSplit(mul: (real, real) -> real, x: seq<real>, y: seq<real>, lo: nat, mid: nat, hi: nat)
    requires |x| == |y| && lo <= mid <= hi <= |x|
    ensures Sum(mul, x, y, lo, hi) == Sum(mul, x, y, lo, mid) + Sum(mul, x, y, mid, hi)
    decreases hi
  {
    if mid < hi { SumSplit(mul, x, y, lo, mid, hi - 1); }
  }

  lemma {:induction false} SumOfPart(mul: (real, real) -> real, x: seq<real>, y: seq<real>, at: nat, k: nat, n: nat)
    requires |x| == |y| && at + n <= |x| && k <= n
    ensures Sum(mul, x[at..at + n], y[at..at + n], 0, k) == Sum(mul, x, y, at, at + k)
    decreases k
  {
    if k > 0 { SumOfPart(mul, x, y, at, k - 1, n); }
  }

  lemma {:induction false} ReduceAdds(load: F32 -> real, sqrt: real -> real, mul: (real, real) -> real,
                                      p: seq<real>, q: seq<real>)
    requires |p| == |q|
    ensures var ar := Exact(load, sqrt, mul); Reduce(ar, AddLanes(ar, p, q)) == Reduce(ar, p) + Reduce(ar, q)
  {
    var ar := Exact(load, sqrt, mul);
    if p != [] {
      var n := |p| - 1;
      assert AddLanes(ar, p, q)[..n] == AddLanes(ar, p[..n], q[..n]);
      ReduceAdds(load, sqrt, mul, p[..n], q[..n]);
    }
  }

  lemma {:induction false} ReduceMultiplies(load: F32 -> real, sqrt: real -> real, mul: (real, real) -> real,
                                            p: seq<real>, q: seq<real>)
    requires |p| == |q|
    ensures var ar := Exact(load, sqrt, mul); Reduce(ar, MulLanes(ar, p, q)) == Sum(mul, p, q, 0, |p|)
  {
    var ar := Exact(load, sqrt, mul);
    if p != [] {
      var n := |p| - 1;
      assert MulLanes(ar, p, q)[..n] == MulLanes(ar, p[..n], q[..n]);
      ReduceMultiplies(load, sqrt, mul, p[..n], q[..n]);
      SumOfPart(mul, p, q, 0, n, n);
    }
  }

  lemma {:induction false} ReduceZeros(load: F32 -> real, sqrt: real -> real, mul: (real, real) -> real, z: seq<real>)
    requires forall i | 0 <= i < |z| :: z[i] == 0.0
    ensures Reduce(Exact(load, sqrt, mul), z) == 0.0
  {
    if z != [] { ReduceZeros(load, sqrt, mul, z[..|z| - 1]); }
  }

  lemma LanesStep(load: F32 -> real, sqrt: real -> real, mul: (real, real) -> real, x: seq<real>, y: seq<real>, c: nat)
    requires |x| == |y| && 8 * c + 8 <= |x|
    ensures LaneTotal(load, sqrt, mul, x, y, c + 1)
            == LaneTotal(load, sqrt, mul, x, y, c) + Sum(mul, Chunk(x, c), Chunk(y, c), 0, |Chunk(x, c)|)
  {
    var ar := Exact(load, sqrt, mul);
    var p, q := Chunk(x, c), Chunk(y, c);
    ReduceAdds(load, sqrt, mul, Lanes(ar, x, y, c), MulLanes(ar, p, q));
    ReduceMultiplies(load, sqrt, mul, p, q);
  }

  lemma LanesSumStep(load: F32 -> real, sqrt: real -> real, mul: (real, real) -> real,
                     x: seq<real>, y: seq<real>, c: nat)
    requires |x| == |y| && 8 * c + 8 <= |x|
    requires LaneTotal(load, sqrt, mul, x, y, c) == Sum(mul, x, y, 0, 8 * c)
    ensures LaneTotal(load, sqrt, mul, x, y, c + 1) == Sum(mul, x, y, 0, 8 * (c + 1))
  {
    LanesStep(load, sqrt, mul, x, y, c);
    ChunkSum(mul, x, y, c);
  }

  lemma ChunkSum(mul: (real, real) -> real, x: seq<real>, y: seq<real>, c: nat)
    requires |x| == |y| && 8 * c + 8 <= |x|
    ensures Sum(mul, x, y, 0, 8 * (c + 1))
            == Sum(mul, x, y, 0, 8 * c) + Sum(mul, Chunk(x, c), Chunk(y, c), 0, |Chunk(x, c)|)
  {
    var w := |Chunk(x, c)|;
    SumOfPart(mul, x, y, 8 * c, w, w);
    SumSplit(mul, x, y, 0, 8 * c, 8 * c + w);
  }

  lemma NoLanes(load: F32 -> real, sqrt: real -> real, mul: (real, real) -> real, x: seq<real>, y: seq<real>)
    requires |x| == |y|
    ensures var ar := Exact(load, sqrt, mul); Reduce(ar, Lanes(ar, x, y, 0)) == 0.0
  {
    ReduceZeros(load, sqrt, mul, ZeroLanes(Exact(load, sqrt, mul)));
  }

  function LaneTotal(load: F32 -> real, sqrt: real -> real, mul: (real, real) -> real,
                     x: seq<real>, y: seq<real>, c: nat): real
    requires |x| == |y| && 8 * c <= |x|
  {
    Reduce(Exact(load, sqrt, mul), Lanes(Exact(load, sqrt, mul), x, y, c))
  }

  /** Reducing the lanes after `c` chunks gives the plain sum of the first `8c` products. */
  lemma {:induction false} LanesSum(load: F32 -> real, sqrt: real -> real, mul: (real, real) -> real,
                                    x: seq<real>, y: seq<real>, c: nat)
    requires |x| == |y| && 8 * c <= |x|
    ensures LaneTotal(load, sqrt, mul, x, y, c) == Sum(mul, x, y, 0, 8 * c)
  {
    if c == 0 {
      NoLanes(load, sqrt, mul, x, y);
    } else {
      LanesSum(load, sqrt, mul, x, y, c - 1);
      LanesSumStep(load, sqrt, mul, x, y, c - 1);
    }
  }

  lemma {:induction false} TailSum(load: F32 -> real, sqrt: real -> real, mul: (real, real) -> real,
                                   x: seq<real>, y: seq<real>, s: real, from: nat, n: nat)
    requires |x| == |y| && from <= n <= |x|
    ensures Tail(Exact(load, sqrt, mul), x, y, s, from, n) == s + Sum(mul, x, y, from, n)
    decreases n
  {
    if from < n { TailSum(load, sqrt, mul, x, y, s, from, n - 1); }
  }

  lemma DotIsSum(load: F32 -> real, sqrt: real -> real, mul: (real, real) -> real, x: seq<real>, y: seq<real>)
    requires |x| == |y|
    ensures Dot(Exact(load, sqrt, mul), x, y) == Sum(mul, x, y, 0, |x|)
  {
    var c := |x| / 8;
    LanesSum(load, sqrt, mul, x, y, c);
    TailSum(load, sqrt, mul, x, y, Sum(mul, x, y, 0, 8 * c), 8 * c, |x|);
    SumSplit(mul, x, y, 0, 8 * c, |x|);
  }

  lemma {:induction false} SuffixIsSum(load: F32 -> real, sqrt: real -> real, mul: (real, real) -> real,
                                       x: seq<real>, i: nat)
    requires i <= |x|
    ensures Suffix(Exact(load, sqrt, mul), x, i) == Sum(mul, x, x, i, |x|)
    decreases |x| - i
  {
    if i < |x| {
      SuffixIsSum(load, sqrt, mul, x, i + 1);
      SumSplit(mul, x, x, i, i + 1, |x|);
      assert Sum(mul, x, x, i, i + 1) == Sum(mul, x, x, i, i) + mul(x[i], x[i]);
    }
  }

  // ─── Cauchy–Schwarz ────────────────────────────────────────────────────────

  function Abs(x: real): real {
    if x < 0.0 then -x else x
  }

  lemma SquareNonNegative(x: real)
    ensures x * x >= 0.0
  {
  }

  lemma {:induction false} SquaresNonNegative(mul: (real, real) -> real, x: seq<real>, lo: nat, hi: nat)
    requires IsProduct(mul) && lo <= hi <= |x|
    ensures Sum(mul, x, x, lo, hi) >= 0.0
    decreases hi
  {
    if lo < hi {
      SquaresNonNegative(mul, x, lo, hi - 1);
      SquareNonNegative(x[hi - 1]);
    }
  }

  lemma SquareOrder(u: real, v: real)
    requires v >= 0.0 && u * u <= v * v
    ensures u <= v
  {
    assert (u - v) * (u + v) == u * u - v * v;
    if u > v { PositiveProduct(u - v, u + v); }
  }

  lemma PositiveProduct(u: real, v: real)
    requires u > 0.0 && v > 0.0
    ensures u * v > 0.0
  {
  }

  lemma ProductSquare(u: real, v: real, x: real, y: real)
    requires u * u == x && v * v == y
    ensures (u * v) * (u * v) == x * y
  {
    assert (u * v) * (u * v) == (u * u) * (v * v);
  }

  /** `(αβ + ab)² <= (α² + a²)(β² + b²)`. */
  lemma OneMoreTerm(alpha: real, beta: real, a: real, b: real)
    ensures (alpha * beta + a * b) * (alpha * beta + a * b) <= (alpha * alpha + a * a) * (beta * beta + b * b)
  {
    var d := alpha * b - a * beta;
    SquareNonNegative(d);
    var p, q, r, s := alpha * beta, a * b, alpha * b, a * beta;
    assert p * q == r * s;
    assert (p + q) * (p + q) == p * p + 2.0 * (p * q) + q * q;
    assert d * d == r * r - 2.0 * (r * s) + s * s;
    Expand(alpha, beta, a, b);
  }

  lemma Expand(alpha: real, beta: real, a: real, b: real)
    ensures (alpha * alpha + a * a) * (beta * beta + b * b)
            == (alpha * beta) * (alpha * beta) + (alpha * b) * (alpha * b) + (a * beta) * (a * beta) + (a * b) * (a * b)
  {
  }

  lemma AbsProduct(a: real, b: real)
    ensures Abs(a) * Abs(b) == Abs(a * b) && Abs(a) * Abs(a) == a * a
  {
  }

  lemma {:induction false} CauchySchwarz(sqrt: real -> real, mul: (real, real) -> real,
                                         x: seq<real>, y: seq<real>, lo: nat, hi: nat)
    requires IsProduct(mul) && IsSqrt(sqrt) && |x| == |y| && lo <= hi <= |x|
    ensures Abs(Sum(mul, x, y, lo, hi)) <= mul(sqrt(Sum(mul, x, x, lo, hi)), sqrt(Sum(mul, y, y, lo, hi)))
    decreases hi
  {
    if lo == hi {
      SquareNonNegative(sqrt(0.0));
    } else {
      CauchySchwarz(sqrt, mul, x, y, lo, hi - 1);
      Extend(sqrt, mul, x, y, lo, hi);
    }
  }

  lemma Extend(sqrt: real -> real, mul: (real, real) -> real, x: seq<real>, y: seq<real>, lo: nat, hi: nat)
    requires IsProduct(mul) && IsSqrt(sqrt) && |x| == |y| && lo < hi <= |x|
    requires Abs(Sum(mul, x, y, lo, hi - 1)) <= mul(sqrt(Sum(mul, x, x, lo, hi - 1)), sqrt(Sum(mul, y, y, lo, hi - 1)))
    ensures Abs(Sum(mul, x, y, lo, hi)) <= mul(sqrt(Sum(mul, x, x, lo, hi)), sqrt(Sum(mul, y, y, lo, hi)))
  {
    SquaresNonNegative(mul, x, lo, hi - 1);
    SquaresNonNegative(mul, y, lo, hi - 1);
    SquaresNonNegative(mul, x, lo, hi);
    SquaresNonNegative(mul, y, lo, hi);
    ExtendOnce(sqrt(Sum(mul, x, x, lo, hi - 1)), sqrt(Sum(mul, y, y, lo, hi - 1)),
               sqrt(Sum(mul, x, x, lo, hi)), sqrt(Sum(mul, y, y, lo, hi)),
               Sum(mul, x, y, lo, hi - 1), x[hi - 1], y[hi - 1]);
  }

  lemma ExtendOnce(alpha: real, beta: real, u: real, v: real, xy: real, a: real, b: real)
    requires alpha >= 0.0 && beta >= 0.0 && u >= 0.0 && v >= 0.0
    requires u * u == alpha * alpha + a * a && v * v == beta * beta + b * b
    requires Abs(xy) <= alpha * beta
    ensures Abs(xy + a * b) <= u * v
  {
    var w := alpha * beta + Abs(a) * Abs(b);
    AbsProduct(a, b);
    AbsProduct(b, b);
    OneMoreTerm(alpha, beta, Abs(a), Abs(b));
    ProductSquare(u, v, alpha * alpha + a * a, beta * beta + b * b);
    NonNegativeProduct(u, v);
    SquareOrder(w, u * v);
  }

  lemma NonNegativeProduct(u: real, v: real)
    requires u >= 0.0 && v >= 0.0
    ensures u * v >= 0.0
  {
  }

  // ─── The bound ─────────────────────────────────────────────────────────────

  lemma BoundUnfolds(load: F32 -> real, sqrt: real -> real, mul: (real, real) -> real,
                     partial: real, tail2: real, nb2: real, head: real, rest: real)
    requires tail2 >= 0.0 && rest >= 0.0 && nb2 - head == rest
    ensures BoundFrom(Exact(load, sqrt, mul), partial, tail2, nb2, head) == partial + mul(sqrt(tail2), sqrt(rest))
  {
  }

  function SumBound(sqrt: real -> real, mul: (real, real) -> real, x: seq<real>, y: seq<real>, k: nat): real
    requires |x| == |y| && k <= |x|
  {
    Sum(mul, x, y, 0, k) + mul(sqrt(Sum(mul, x, x, k, |x|)), sqrt(Sum(mul, y, y, k, |x|)))
  }

  lemma BoundArguments(load: F32 -> real, sqrt: real -> real, mul: (real, real) -> real,
                       x: seq<real>, y: seq<real>, c: nat)
    requires |x| == |y| && 8 * c <= |x|
    ensures var ar, k := Exact(load, sqrt, mul), 8 * c;
            Bound(ar, x, y, Sum(mul, y, y, 0, |y|), c)
            == BoundFrom(ar, Sum(mul, x, y, 0, k), Sum(mul, x, x, k, |x|), Sum(mul, y, y, 0, |y|), Sum(mul, y, y, 0, k))
  {
    LanesSum(load, sqrt, mul, x, y, c);
    LanesSum(load, sqrt, mul, y, y, c);
    SuffixIsSum(load, sqrt, mul, x, 8 * c);
  }

  /** The checked bound, spelled out in sums. */
  lemma BoundIsSums(load: F32 -> real, sqrt: real -> real, mul: (real, real) -> real,
                    x: seq<real>, y: seq<real>, c: nat)
    requires IsProduct(mul) && |x| == |y| && 8 * c <= |x|
    ensures Bound(Exact(load, sqrt, mul), x, y, Sum(mul, y, y, 0, |y|), c) == SumBound(sqrt, mul, x, y, 8 * c)
  {
    var k := 8 * c;
    BoundArguments(load, sqrt, mul, x, y, c);
    SumSplit(mul, y, y, 0, k, |y|);
    SquaresNonNegative(mul, x, k, |x|);
    SquaresNonNegative(mul, y, k, |x|);
    BoundUnfolds(load, sqrt, mul, Sum(mul, x, y, 0, k), Sum(mul, x, x, k, |x|),
                 Sum(mul, y, y, 0, |y|), Sum(mul, y, y, 0, k), Sum(mul, y, y, k, |x|));
  }

  lemma SumBounded(sqrt: real -> real, mul: (real, real) -> real, x: seq<real>, y: seq<real>, k: nat)
    requires IsProduct(mul) && IsSqrt(sqrt) && |x| == |y| && k <= |x|
    ensures Sum(mul, x, y, 0, |x|) <= SumBound(sqrt, mul, x, y, k)
  {
    SumSplit(mul, x, y, 0, k, |x|);
    CauchySchwarz(sqrt, mul, x, y, k, |x|);
  }

  /** At every chunk boundary the partial dot plus the tail norms bounds the final dot. */
  lemma BoundHolds(load: F32 -> real, sqrt: real -> real, mul: (real, real) -> real, x: seq<real>, y: seq<real>, c: nat)
    requires IsProduct(mul) && IsSqrt(sqrt) && |x| == |y| && 8 * c <= |x|
    ensures var ar := Exact(load, sqrt, mul); Dot(ar, x, y) <= Bound(ar, x, y, Dot(ar, y, y), c)
  {
    DotIsSum(load, sqrt, mul, x, y);
    DotIsSum(load, sqrt, mul, y, y);
    SumBounded(sqrt, mul, x, y, 8 * c);
    BoundIsSums(load, sqrt, mul, x, y, c);
  }

  lemma QuotientBelow(dot: real, denom: real, t: real)
    requires denom > 0.0 && dot < t * denom
    ensures dot / denom < t
  {
  }

  lemma PositiveRoot(sqrt: real -> real, x: real)
    requires IsSqrt(sqrt) && x >= 0.0 && x != 0.0
    ensures sqrt(x) > 0.0
  {
    assert sqrt(x) * sqrt(x) == x;
  }

  lemma NormsNonNegative(load: F32 -> real, sqrt: real -> real, mul: (real, real) -> real, x: seq<real>)
    requires IsProduct(mul)
    ensures Dot(Exact(load, sqrt, mul), x, x) >= 0.0
  {
    DotIsSum(load, sqrt, mul, x, x);
    SquaresNonNegative(mul, x, 0, |x|);
  }

  /** A cut at any boundary means the final dot is below what it was compared with. */
  lemma CutIsBelow(load: F32 -> real, sqrt: real -> real, mul: (real, real) -> real,
                   x: seq<real>, y: seq<real>, td: real, c: nat)
    requires IsProduct(mul) && IsSqrt(sqrt) && |x| == |y| && 8 * c <= |x|
    requires var ar := Exact(load, sqrt, mul); Cut(ar, x, y, Dot(ar, y, y), Some(td), c)
    ensures Dot(Exact(load, sqrt, mul), x, y) < td
  {
    BoundHolds(load, sqrt, mul, x, y, c);
  }

  lemma ScoreBelow(load: F32 -> real, sqrt: real -> real, mul: (real, real) -> real,
                   dot: real, na: real, nb: real, t: real)
    requires IsProduct(mul) && na > 0.0 && nb > 0.0
    requires var ar := Exact(load, sqrt, mul); dot < ar.mul64(t, ar.mul64(na, nb))
    ensures var ar := Exact(load, sqrt, mul); ar.div64(dot, ar.mul64(na, nb)) < t
  {
    PositiveProduct(na, nb);
    QuotientBelow(dot, na * nb, t);
  }

  lemma NormPositive(load: F32 -> real, sqrt: real -> real, mul: (real, real) -> real, x: seq<real>)
    requires IsProduct(mul) && IsSqrt(sqrt)
    ensures var d := Dot(Exact(load, sqrt, mul), x, x); d >= 0.0 && sqrt(d) >= 0.0 && (d != 0.0 ==> sqrt(d) > 0.0)
  {
    NormsNonNegative(load, sqrt, mul, x);
    var d := Dot(Exact(load, sqrt, mul), x, x);
    if d != 0.0 { PositiveRoot(sqrt, d); }
  }

  /**
   For every query, candidate, threshold and block size: the pruned scorer
   returns what the plain cosine returns, or nothing when the cosine is strictly
   below the threshold.
   */
  lemma AbortsOnlyBelowThreshold(load: F32 -> real, sqrt: real -> real, mul: (real, real) -> real,
                                 x: seq<real>, y: seq<real>,
                                 threshold: Option<real>, block: nat)
    requires IsProduct(mul) && IsSqrt(sqrt) && |x| == |y| && x != []
    ensures var ar := Exact(load, sqrt, mul);
            var r := Pruned(ar, x, y, ar.sqrt(Dot(ar, x, x)), Dot(ar, y, y), threshold, block);
            var cosine := Cosine(ar, x, y);
            r == cosine || (r == None && cosine.Some? && threshold.Some? && cosine.value < threshold.value)
  {
    var ar := Exact(load, sqrt, mul);
    var na, nb2 := ar.sqrt(Dot(ar, x, x)), Dot(ar, y, y);
    PrunedIsCosine(ar, x, y, threshold, block);
    if Pruned(ar, x, y, na, nb2, threshold, block) != Cosine(ar, x, y) {
      var k, td := ChunksPerBlock(block), ar.mul64(threshold.value, ar.mul64(na, ar.sqrt(nb2)));
      var c :| 0 < c < |x| / 8 && c % k == 0 && Cut(ar, x, y, nb2, Some(td), c);
      CutIsBelow(load, sqrt, mul, x, y, td, c);
      NormPositive(load, sqrt, mul, x);
      NormPositive(load, sqrt, mul, y);
      ScoreBelow(load, sqrt, mul, Dot(ar, x, y), na, ar.sqrt(nb2), threshold.value);
    }
  }

  /** So the scorer never withholds a candidate whose score reaches the threshold, stored norm or not. */
  lemma WithheldOnlyBelowThreshold(load: F32 -> real, sqrt: real -> real, mul: (real, real) -> real,
                                   a: seq<F32>, b: seq<Byte>, stored: Option<real>,
                                   threshold: Option<real>, block: nat)
    requires IsProduct(mul) && IsSqrt(sqrt)
    requires stored.Some? ==> stored.value == NormOf(Exact(load, sqrt, mul), Unpack(b))
    ensures var ar := Exact(load, sqrt, mul);
            var r := PrunedScore(ar, a, ar.sqrt(NormOf(ar, a)), b, stored, threshold, block);
            var plain := PlainScore(ar, a, b);
            r == plain || (r == None && plain.Some? && threshold.Some? && plain.value < threshold.value)
  {
    var ar := Exact(load, sqrt, mul);
    if a != [] && |b| == 4 * |a| {
      AbortsOnlyBelowThreshold(load, sqrt, mul, Loaded(ar, a), Loaded(ar, Unpack(b)), threshold, block);
    }
  }
}
