/**
 The scorer of NEAREST for any arithmetic: eight 32-bit lanes over packed
 candidate bytes, reduced and finished in 64 bits, and the pruned cosine that
 checks a bound between blocks. Nothing here assumes that addition associates.
 */
module Distance {
  import opened Bytes
  import opened FieldDictionary
  import opened Leb128
  import opened Values
  import opened VectorColumn

  /** The floating point operations, F for the 32-bit and D for the 64-bit side. */
  datatype Arith<!F, !D> = Arith(
    load: F32 -> F,
    zero32: F, add32: (F, F) -> F, mul32: (F, F) -> F,
    widen: F -> D,
    zero64: D, add64: (D, D) -> D, sub64: (D, D) -> D, mul64: (D, D) -> D, div64: (D, D) -> D,
    sqrt: D -> D, positive: D -> D, isZero: D -> bool, less: (D, D) -> bool)

  // ─── Reference terms ───────────────────────────────────────────────────────

  function Loaded<F, D>(ar: Arith<F, D>, v: seq<F32>): (x: seq<F>)
    ensures |x| == |v|
  {
    seq(|v|, i requires 0 <= i < |v| => ar.load(v[i]))
  }

  function Chunk<F>(x: seq<F>, c: nat): seq<F>
    requires 8 * c + 8 <= |x|
  {
    x[8 * c..8 * c + 8]
  }

  function AddLanes<F, D>(ar: Arith<F, D>, x: seq<F>, y: seq<F>): (z: seq<F>)
    requires |x| == |y|
    ensures |z| == |x|
  {
    seq(|x|, i requires 0 <= i < |x| => ar.add32(x[i], y[i]))
  }

  function MulLanes<F, D>(ar: Arith<F, D>, x: seq<F>, y: seq<F>): (z: seq<F>)
    requires |x| == |y|
    ensures |z| == |x|
  {
    seq(|x|, i requires 0 <= i < |x| => ar.mul32(x[i], y[i]))
  }

  function ZeroLanes<F, D>(ar: Arith<F, D>): (z: seq<F>)
    ensures |z| == 8
  {
    seq(8, _ => ar.zero32)
  }

  /** The lane accumulator after `c` chunks. */
  function Lanes<F, D>(ar: Arith<F, D>, x: seq<F>, y: seq<F>, c: nat): (z: seq<F>)
    requires |x| == |y| && 8 * c <= |x|
    ensures |z| == 8
  {
    if c == 0 then ZeroLanes(ar)
    else AddLanes(ar, Lanes(ar, x, y, c - 1), MulLanes(ar, Chunk(x, c - 1), Chunk(y, c - 1)))
  }

  /** The lanes widened and summed one after the other. */
  function Reduce<F, D>(ar: Arith<F, D>, lanes: seq<F>): D {
    if lanes == [] then ar.zero64
    else ar.add64(Reduce(ar, lanes[..|lanes| - 1]), ar.widen(lanes[|lanes| - 1]))
  }

  /** The ragged tail added to `s` element by element, up to `n`. */
  function Tail<F, D>(ar: Arith<F, D>, x: seq<F>, y: seq<F>, s: D, from: nat, n: nat): D
    requires |x| == |y| && from <= n <= |x|
  {
    if n == from then s
    else ar.add64(Tail(ar, x, y, s, from, n - 1), ar.mul64(ar.widen(x[n - 1]), ar.widen(y[n - 1])))
  }

  function Dot<F, D>(ar: Arith<F, D>, x: seq<F>, y: seq<F>): D
    requires |x| == |y|
  {
    Tail(ar, x, y, Reduce(ar, Lanes(ar, x, y, |x| / 8)), 8 * (|x| / 8), |x|)
  }

  /** The squared norm, reduced as the dot is. */
  function NormOf<F, D>(ar: Arith<F, D>, v: seq<F32>): D {
    Dot(ar, Loaded(ar, v), Loaded(ar, v))
  }

  function Cosine<F, D>(ar: Arith<F, D>, x: seq<F>, y: seq<F>): Option<D>
    requires |x| == |y|
  {
    var na, nb2 := ar.sqrt(Dot(ar, x, x)), Dot(ar, y, y);
    if ar.isZero(na) || ar.isZero(nb2) then None
    else Some(ar.div64(Dot(ar, x, y), ar.mul64(na, ar.sqrt(nb2))))
  }

  /** Suffix sums of squares from `i` on. */
  function Suffix<F, D>(ar: Arith<F, D>, x: seq<F>, i: nat): D
    requires i <= |x|
    decreases |x| - i
  {
    if i == |x| then ar.zero64
    else ar.add64(Suffix(ar, x, i + 1), ar.mul64(ar.widen(x[i]), ar.widen(x[i])))
  }

  // ─── Reading candidates ────────────────────────────────────────────────────

  /** Eight packed floats from element `off` on. */
  function Load8<F, D>(ar: Arith<F, D>, b: seq<Byte>, off: nat): (z: seq<F>)
    requires 4 * off + 32 <= |b|
    ensures |z| == 8
  {
    seq(8, i requires 0 <= i < 8 => F32At(ar, b, off + i))
  }

  function F32At<F, D>(ar: Arith<F, D>, b: seq<Byte>, i: nat): F
    requires 4 * i + 4 <= |b|
  {
    ar.load(Float32(b[4 * i..4 * i + 4]))
  }

  lemma ElementAt<F, D>(ar: Arith<F, D>, b: seq<Byte>, i: nat)
    requires i < |b| / 4
    ensures Loaded(ar, Unpack(b))[i] == F32At(ar, b, i)
  {
  }

  lemma LoadIsChunk<F, D>(ar: Arith<F, D>, b: seq<Byte>, c: nat)
    requires 8 * c + 8 <= |b| / 4
    ensures Load8(ar, b, 8 * c) == Chunk(Loaded(ar, Unpack(b)), c)
  {
    var x, y := Load8(ar, b, 8 * c), Chunk(Loaded(ar, Unpack(b)), c);
    forall i | 0 <= i < 8 ensures x[i] == y[i] {
      ElementAt(ar, b, 8 * c + i);
    }
  }

  // ─── The accumulators ──────────────────────────────────────────────────────

  method ReduceLanes<F, D>(ar: Arith<F, D>, lanes: seq<F>) returns (s: D)
    ensures s == Reduce(ar, lanes)
  {
    s := ar.zero64;
    for i := 0 to |lanes|
      invariant s == Reduce(ar, lanes[..i])
    {
      assert lanes[..i + 1][..i] == lanes[..i];
      s := ar.add64(s, ar.widen(lanes[i]));
    }
    assert lanes[..|lanes|] == lanes;
  }

  /** One chunk multiplied into the accumulator. */
  method AddChunk<F, D>(ar: Arith<F, D>, a: seq<F32>, b: seq<Byte>, c: nat, acc: seq<F>) returns (r: seq<F>)
    requires |b| == 4 * |a| && 8 * c + 8 <= |a| && acc == Lanes(ar, Loaded(ar, a), Loaded(ar, Unpack(b)), c)
    ensures r == Lanes(ar, Loaded(ar, a), Loaded(ar, Unpack(b)), c + 1)
  {
    LoadIsChunk(ar, b, c);
    assert Loaded(ar, a[8 * c..8 * c + 8]) == Chunk(Loaded(ar, a), c);
    r := AddLanes(ar, acc, MulLanes(ar, Loaded(ar, a[8 * c..8 * c + 8]), Load8(ar, b, 8 * c)));
  }

  lemma TailNext<F, D>(ar: Arith<F, D>, x: seq<F>, y: seq<F>, start: D, from: nat, i: nat, u: F, v: F)
    requires |x| == |y| && from <= i < |x| && x[i] == u && y[i] == v
    ensures Tail(ar, x, y, start, from, i + 1)
            == ar.add64(Tail(ar, x, y, start, from, i), ar.mul64(ar.widen(u), ar.widen(v)))
  {
  }

  /** The ragged tail behind the reduced lanes. */
  method AddTail<F, D>(ar: Arith<F, D>, a: seq<F32>, b: seq<Byte>, start: D, from: nat) returns (s: D)
    requires |b| == 4 * |a| && from <= |a|
    ensures s == Tail(ar, Loaded(ar, a), Loaded(ar, Unpack(b)), start, from, |a|)
  {
    s := start;
    ghost var x, y := Loaded(ar, a), Loaded(ar, Unpack(b));
    for i := from to |a|
      invariant s == Tail(ar, x, y, start, from, i)
    {
      ElementAt(ar, b, i);
      var u, v := ar.load(a[i]), F32At(ar, b, i);
      TailNext(ar, x, y, start, from, i, u, v);
      s := ar.add64(s, ar.mul64(ar.widen(u), ar.widen(v)));
    }
  }

  method DotAcc<F, D>(ar: Arith<F, D>, a: seq<F32>, b: seq<Byte>) returns (s: D)
    requires |b| == 4 * |a|
    ensures s == Dot(ar, Loaded(ar, a), Loaded(ar, Unpack(b)))
  {
    var chunks := |a| / 8;
    var acc := ZeroLanes(ar);
    for c := 0 to chunks
      invariant acc == Lanes(ar, Loaded(ar, a), Loaded(ar, Unpack(b)), c)
    {
      acc := AddChunk(ar, a, b, c, acc);
    }
    s := ReduceLanes(ar, acc);
    s := AddTail(ar, a, b, s, 8 * chunks);
  }

  method AddSquares<F, D>(ar: Arith<F, D>, b: seq<Byte>, c: nat, acc: seq<F>) returns (r: seq<F>)
    requires 8 * c + 8 <= |b| / 4 && acc == Lanes(ar, Loaded(ar, Unpack(b)), Loaded(ar, Unpack(b)), c)
    ensures r == Lanes(ar, Loaded(ar, Unpack(b)), Loaded(ar, Unpack(b)), c + 1)
  {
    LoadIsChunk(ar, b, c);
    var v := Load8(ar, b, 8 * c);
    r := AddLanes(ar, acc, MulLanes(ar, v, v));
  }

  method AddTailSquares<F, D>(ar: Arith<F, D>, b: seq<Byte>, start: D, from: nat) returns (s: D)
    requires from <= |b| / 4
    ensures s == Tail(ar, Loaded(ar, Unpack(b)), Loaded(ar, Unpack(b)), start, from, |b| / 4)
  {
    s := start;
    ghost var y := Loaded(ar, Unpack(b));
    for i := from to |b| / 4
      invariant s == Tail(ar, y, y, start, from, i)
    {
      ElementAt(ar, b, i);
      var u := F32At(ar, b, i);
      TailNext(ar, y, y, start, from, i, u, u);
      var x := ar.widen(u);
      s := ar.add64(s, ar.mul64(x, x));
    }
  }

  method DotSelfBytes<F, D>(ar: Arith<F, D>, b: seq<Byte>) returns (s: D)
    ensures s == NormOf(ar, Unpack(b))
  {
    var n := |b| / 4;
    var chunks := n / 8;
    var acc := ZeroLanes(ar);
    for c := 0 to chunks
      invariant acc == Lanes(ar, Loaded(ar, Unpack(b)), Loaded(ar, Unpack(b)), c)
    {
      acc := AddSquares(ar, b, c, acc);
    }
    s := ReduceLanes(ar, acc);
    s := AddTailSquares(ar, b, s, 8 * chunks);
  }

  /** The norm the write path stores: the dot of a vector with its own packed bytes. */
  method NormSq<F, D>(ar: Arith<F, D>, v: seq<F32>) returns (s: D)
    ensures s == NormOf(ar, v)
  {
    UnpackInvertsPack(v);
    s := DotAcc(ar, v, Pack(v));
  }

  /**
   A column built with the vector's norm reads back as the vector's bytes with a
   stored norm equal to the one the scorer would compute live from those bytes.
   */
  lemma StoredNormIsLiveNorm<F>(ar: Arith<F, F64>, lid: nat, id: U16, v: seq<F32>)
    requires lid < U128 && 4 * |v| < USIZE
    ensures ReadColumn(Column(lid, id, v, NormOf(ar, v))).Some?
    ensures var p := ReadColumn(Column(lid, id, v, NormOf(ar, v))).value;
            p.lid == lid && p.id == id && p.floats == Pack(v) && p.norm == Some(NormOf(ar, Unpack(p.floats)))
  {
    WholeColumnReads(lid, id, v, NormOf(ar, v));
    UnpackInvertsPack(v);
  }

  /** What the plain scorer returns. */
  function PlainScore<F, D>(ar: Arith<F, D>, a: seq<F32>, b: seq<Byte>): Option<D> {
    if a == [] || |b| != 4 * |a| then None else Cosine(ar, Loaded(ar, a), Loaded(ar, Unpack(b)))
  }

  method SimilarityCosine<F, D>(ar: Arith<F, D>, a: seq<F32>, b: seq<Byte>) returns (r: Option<D>)
    ensures r == PlainScore(ar, a, b)
  {
    if a == [] || |b| != 4 * |a| {
      return None;
    }
    var radicand := NormSq(ar, a);
    var na := ar.sqrt(radicand);
    var nb2 := DotSelfBytes(ar, b);
    if ar.isZero(na) || ar.isZero(nb2) {
      return None;
    }
    var dot := DotAcc(ar, a, b);
    return Some(ar.div64(dot, ar.mul64(na, ar.sqrt(nb2))));
  }

  method SuffixNorm2<F, D>(ar: Arith<F, D>, a: seq<F32>) returns (out: array<D>)
    ensures fresh(out) && out.Length == |a| + 1
    ensures forall i | 0 <= i <= |a| :: out[i] == Suffix(ar, Loaded(ar, a), i)
  {
    var n := |a|;
    out := new D[n + 1](_ => ar.zero64);
    for i := n downto 0
      invariant forall k | i <= k <= n :: out[k] == Suffix(ar, Loaded(ar, a), k)
    {
      out[i] := ar.add64(out[i + 1], ar.mul64(ar.widen(ar.load(a[i])), ar.widen(ar.load(a[i]))));
    }
  }

  // ─── The pruned cosine ─────────────────────────────────────────────────────

  function BoundFrom<F, D>(ar: Arith<F, D>, partial: D, tail2: D, nb2: D, head: D): D {
    ar.add64(partial, ar.mul64(ar.sqrt(ar.positive(tail2)), ar.sqrt(ar.positive(ar.sub64(nb2, head)))))
  }

  /** The bound checked behind `c` chunks: partial dot plus the product of the tail norms. */
  function Bound<F, D>(ar: Arith<F, D>, x: seq<F>, y: seq<F>, nb2: D, c: nat): D
    requires |x| == |y| && 8 * c <= |x|
  {
    BoundFrom(ar, Reduce(ar, Lanes(ar, x, y, c)), Suffix(ar, x, 8 * c), nb2, Reduce(ar, Lanes(ar, y, y, c)))
  }

  /** The candidate is given up behind chunk `c`. */
  predicate Cut<F, D>(ar: Arith<F, D>, x: seq<F>, y: seq<F>, nb2: D, td: Option<D>, c: nat)
    requires |x| == |y| && 8 * c <= |x|
  {
    td.Some? && ar.less(Bound(ar, x, y, nb2, c), td.value)
  }

  function ChunksPerBlock(block: nat): (k: nat)
    ensures k >= 1
  {
    (if block < 8 then 8 else block) / 8
  }

  /** The candidate is given up at some block boundary up to `c`. */
  predicate Aborts<F, D>(ar: Arith<F, D>, x: seq<F>, y: seq<F>, nb2: D, td: Option<D>, k: nat, c: nat)
    requires |x| == |y| && 8 * c <= |x| && k >= 1
  {
    exists b | 0 < b <= c && b < |x| / 8 && b % k == 0 :: Cut(ar, x, y, nb2, td, b)
  }

  /** Both accumulators stand behind chunk `c`. */
  predicate Behind<F(==), D>(ar: Arith<F, D>, a: seq<F32>, b: seq<Byte>, c: nat, acc: seq<F>, bsq: seq<F>)
    requires |b| == 4 * |a| && 8 * c <= |a|
  {
    acc == Lanes(ar, Loaded(ar, a), Loaded(ar, Unpack(b)), c)
    && bsq == Lanes(ar, Loaded(ar, Unpack(b)), Loaded(ar, Unpack(b)), c)
  }

  method AddBoth<F, D>(ar: Arith<F, D>, a: seq<F32>, b: seq<Byte>, c: nat, acc0: seq<F>, bsq0: seq<F>)
    returns (acc: seq<F>, bsq: seq<F>)
    requires |b| == 4 * |a| && 8 * c + 8 <= |a| && Behind(ar, a, b, c, acc0, bsq0)
    ensures Behind(ar, a, b, c + 1, acc, bsq)
  {
    acc := AddChunk(ar, a, b, c, acc0);
    bsq := AddSquares(ar, b, c, bsq0);
  }

  method Block<F, D>(ar: Arith<F, D>, a: seq<F32>, b: seq<Byte>, c: nat, cend: nat, acc0: seq<F>, bsq0: seq<F>)
    returns (acc: seq<F>, bsq: seq<F>)
    requires |b| == 4 * |a| && c <= cend && 8 * cend <= |a| && Behind(ar, a, b, c, acc0, bsq0)
    ensures Behind(ar, a, b, cend, acc, bsq)
  {
    acc, bsq := acc0, bsq0;
    for cc := c to cend
      invariant Behind(ar, a, b, cc, acc, bsq)
    {
      acc, bsq := AddBoth(ar, a, b, cc, acc, bsq);
    }
  }

  method CheckBound<F, D>(ar: Arith<F, D>, ghost x: seq<F>, ghost y: seq<F>, tail2: D, nb2: D, td: Option<D>,
                          ghost c: nat, acc: seq<F>, bsq: seq<F>) returns (cut: bool)
    requires |x| == |y| && 8 * c <= |x| && tail2 == Suffix(ar, x, 8 * c)
    requires acc == Lanes(ar, x, y, c) && bsq == Lanes(ar, y, y, c)
    ensures cut == Cut(ar, x, y, nb2, td, c)
  {
    if td.None? {
      return false;
    }
    var partial := ReduceLanes(ar, acc);
    var head := ReduceLanes(ar, bsq);
    var aTail := ar.sqrt(ar.positive(tail2));
    var bTail := ar.sqrt(ar.positive(ar.sub64(nb2, head)));
    cut := ar.less(ar.add64(partial, ar.mul64(aTail, bTail)), td.value);
  }

  lemma NoBoundaryBetween(c: nat, k: nat, b: nat)
    requires k >= 1 && c % k == 0 && c < b < c + k
    ensures b % k != 0
  {
    if b % k == 0 {
      var p, q := c / k, b / k;
      assert c == p * k && b == q * k;
      if q <= p { MulMonotone(q, p, k); } else { MulMonotone(p + 1, q, k); }
    }
  }

  lemma NextBoundary(c: nat, k: nat)
    requires k >= 1 && c % k == 0
    ensures (c + k) % k == 0
  {
    var p := c / k;
    assert c + k == (p + 1) * k + 0;
    RemainderUnique(c + k, k, p + 1, 0);
  }

  lemma RemainderUnique(v: nat, d: nat, q: nat, r: nat)
    requires d > 0 && v == q * d + r && r < d
    ensures v % d == r
  {
    var q1, r1 := v / d, v % d;
    assert v == q1 * d + r1;
    if q1 < q { MulMonotone(q1 + 1, q, d); }
    if q < q1 { MulMonotone(q + 1, q1, d); }
  }

  lemma AbortsOn<F, D>(ar: Arith<F, D>, x: seq<F>, y: seq<F>, nb2: D, td: Option<D>, k: nat, c: nat, cend: nat)
    requires |x| == |y| && k >= 1 && c % k == 0 && c < |x| / 8
    requires cend == (if c + k < |x| / 8 then c + k else |x| / 8)
    requires !Aborts(ar, x, y, nb2, td, k, c)
    ensures Aborts(ar, x, y, nb2, td, k, cend) <==> cend < |x| / 8 && Cut(ar, x, y, nb2, td, cend)
  {
    forall b | c < b < cend ensures b % k != 0 { NoBoundaryBetween(c, k, b); }
    NextBoundary(c, k);
  }

  lemma AbortsLater<F, D>(ar: Arith<F, D>, x: seq<F>, y: seq<F>, nb2: D, td: Option<D>, k: nat, c: nat)
    requires |x| == |y| && k >= 1 && 8 * c <= |x| && Aborts(ar, x, y, nb2, td, k, c)
    ensures Aborts(ar, x, y, nb2, td, k, |x| / 8)
  {
    var b :| 0 < b <= c && b < |x| / 8 && b % k == 0 && Cut(ar, x, y, nb2, td, b);
  }

  /**
   What the pruned scorer returns: nothing when the shapes disagree, a norm is
   zero or some block boundary cuts; otherwise the full dot over `na` and `nb2`.
   */
  function Pruned<F, D>(ar: Arith<F, D>, x: seq<F>, y: seq<F>, na: D, nb2: D, threshold: Option<D>,
                        block: nat): Option<D>
    requires |x| == |y|
  {
    var denom := ar.mul64(na, ar.sqrt(nb2));
    var td := if threshold.Some? then Some(ar.mul64(threshold.value, denom)) else None;
    if x == [] || ar.isZero(na) || ar.isZero(nb2) || Aborts(ar, x, y, nb2, td, ChunksPerBlock(block), |x| / 8) then None
    else Some(ar.div64(Dot(ar, x, y), denom))
  }

  /** The blocked loop: the finished lanes, or nothing when a boundary cuts. */
  method Blocks<F, D>(ar: Arith<F, D>, a: seq<F32>, suffix: array<D>, b: seq<Byte>, nb2: D, td: Option<D>, k: nat)
    returns (r: Option<seq<F>>)
    requires |b| == 4 * |a| && k >= 1 && suffix.Length == |a| + 1
    requires forall i | 0 <= i <= |a| :: suffix[i] == Suffix(ar, Loaded(ar, a), i)
    ensures var x, y := Loaded(ar, a), Loaded(ar, Unpack(b));
            r == if Aborts(ar, x, y, nb2, td, k, |a| / 8) then None else Some(Lanes(ar, x, y, |a| / 8))
  {
    ghost var x, y := Loaded(ar, a), Loaded(ar, Unpack(b));
    var chunks := |a| / 8;
    var acc, bsq, c := ZeroLanes(ar), ZeroLanes(ar), 0;
    while c < chunks
      invariant c <= chunks && (c < chunks ==> c % k == 0)
      invariant acc == Lanes(ar, x, y, c) && bsq == Lanes(ar, y, y, c)
      invariant !Aborts(ar, x, y, nb2, td, k, c)
    {
      var cend := if c + k < chunks then c + k else chunks;
      acc, bsq := Block(ar, a, b, c, cend, acc, bsq);
      AbortsOn(ar, x, y, nb2, td, k, c, cend);
      NextBoundary(c, k);
      c := cend;
      if c < chunks {
        var cut := CheckBound(ar, x, y, suffix[8 * c], nb2, td, c, acc, bsq);
        if cut {
          AbortsLater(ar, x, y, nb2, td, k, c);
          return None;
        }
      }
    }
    return Some(acc);
  }

  /** What the pruned scorer returns, with the candidate's squared norm stored or not. */
  function PrunedScore<F, D>(ar: Arith<F, D>, a: seq<F32>, na: D, b: seq<Byte>, stored: Option<D>,
                             threshold: Option<D>, block: nat): Option<D>
  {
    if |b| != 4 * |a| then None
    else
      var nb2 := if stored.Some? then stored.value else NormOf(ar, Unpack(b));
      Pruned(ar, Loaded(ar, a), Loaded(ar, Unpack(b)), na, nb2, threshold, block)
  }

  method CosinePruned<F, D>(ar: Arith<F, D>, a: seq<F32>, na: D, suffix: array<D>, b: seq<Byte>, stored: Option<D>,
                            threshold: Option<D>, block: nat) returns (r: Option<D>)
    requires suffix.Length == |a| + 1 && forall i | 0 <= i <= |a| :: suffix[i] == Suffix(ar, Loaded(ar, a), i)
    ensures r == PrunedScore(ar, a, na, b, stored, threshold, block)
  {
    if |b| != 4 * |a| || |a| == 0 {
      return None;
    }
    var nb2: D;
    if stored.Some? {
      nb2 := stored.value;
    } else {
      nb2 := DotSelfBytes(ar, b);
    }
    if ar.isZero(na) || ar.isZero(nb2) {
      return None;
    }
    var denom := ar.mul64(na, ar.sqrt(nb2));
    var td := if threshold.Some? then Some(ar.mul64(threshold.value, denom)) else None;
    var acc := Blocks(ar, a, suffix, b, nb2, td, ChunksPerBlock(block));
    if acc.None? {
      return None;
    }
    var dot := ReduceLanes(ar, acc.value);
    dot := AddTail(ar, a, b, dot, 8 * (|a| / 8));
    return Some(ar.div64(dot, denom));
  }

  /** The bound of some block boundary lies below the threshold. */
  predicate CutSomewhere<F, D>(ar: Arith<F, D>, x: seq<F>, y: seq<F>, threshold: D, block: nat)
    requires |x| == |y|
  {
    var na, nb2 := ar.sqrt(Dot(ar, x, x)), Dot(ar, y, y);
    Aborts(ar, x, y, nb2, Some(ar.mul64(threshold, ar.mul64(na, ar.sqrt(nb2)))), ChunksPerBlock(block), |x| / 8)
  }

  lemma PrunedIsCosine<F, D>(ar: Arith<F, D>, x: seq<F>, y: seq<F>, threshold: Option<D>, block: nat)
    requires |x| == |y| && x != []
    ensures var r := Pruned(ar, x, y, ar.sqrt(Dot(ar, x, x)), Dot(ar, y, y), threshold, block);
            r == Cosine(ar, x, y)
            || (r == None && Cosine(ar, x, y).Some? && threshold.Some?
                && CutSomewhere(ar, x, y, threshold.value, block))
  {
  }

  /** The pruned score is the plain score; a defined score is withheld only by a cut. */
  predicate SurvivesOrCut<F, D(==)>(ar: Arith<F, D>, a: seq<F32>, b: seq<Byte>, stored: Option<D>,
                                    threshold: Option<D>, block: nat)
  {
    var r, plain := PrunedScore(ar, a, ar.sqrt(NormOf(ar, a)), b, stored, threshold, block), PlainScore(ar, a, b);
    r == plain
    || (&& r == None && plain.Some? && threshold.Some?
        && CutSomewhere(ar, Loaded(ar, a), Loaded(ar, Unpack(b)), threshold.value, block))
  }

  /**
   For any arithmetic, any block size, any shapes, and the squared norm stored or
   live: what the pruned scorer returns is what the plain scorer returns, or a cut.
   */
  lemma SurvivorIsSimilarity<F, D>(ar: Arith<F, D>, a: seq<F32>, b: seq<Byte>, stored: Option<D>,
                                   threshold: Option<D>, block: nat)
    requires stored.Some? ==> stored.value == NormOf(ar, Unpack(b))
    ensures SurvivesOrCut(ar, a, b, stored, threshold, block)
  {
    if a != [] && |b| == 4 * |a| {
      PrunedIsCosine(ar, Loaded(ar, a), Loaded(ar, Unpack(b)), threshold, block);
    }
  }

  /** Scoring a written column with the norm it stores is scoring its vector without one. */
  lemma StoredColumnScores<F>(ar: Arith<F, F64>, lid: nat, id: U16, v: seq<F32>, a: seq<F32>,
                              threshold: Option<F64>, block: nat)
    requires lid < U128 && 4 * |v| < USIZE
    ensures ReadColumn(Column(lid, id, v, NormOf(ar, v))).Some?
    ensures var p := ReadColumn(Column(lid, id, v, NormOf(ar, v))).value;
            p.norm.Some? && SurvivesOrCut(ar, a, p.floats, p.norm, threshold, block)
  {
    StoredNormIsLiveNorm(ar, lid, id, v);
    var p := ReadColumn(Column(lid, id, v, NormOf(ar, v))).value;
    SurvivorIsSimilarity(ar, a, p.floats, p.norm, threshold, block);
  }
}
