/**
 Byte strings, their lexicographic order (the order the LSM keeps its keys in)
 and the fixed-width big-endian integers keys are assembled from.
 */
module Bytes {

  type Byte = b: int | 0 <= b < 256

  datatype Ordering = Less | Equal | Greater {
    function Reverse(): Ordering {
      match this
      case Less => Greater
      case Equal => Equal
      case Greater => Less
    }

    /** The first comparison decides; the second only breaks a tie. */
    function Then(next: Ordering): Ordering {
      if this == Equal then next else this
    }
  }

  datatype Option<+T> = None | Some(value: T)

  function IntCmp(a: int, b: int): Ordering {
    if a < b then Less else if a == b then Equal else Greater
  }

  /** Lexicographic comparison; a proper prefix sorts first. */
  function Cmp(a: seq<Byte>, b: seq<Byte>): Ordering {
    if a == [] then (if b == [] then Equal else Less)
    else if b == [] then Greater
    else IntCmp(a[0], b[0]).Then(Cmp(a[1..], b[1..]))
  }

  predicate Le(a: seq<Byte>, b: seq<Byte>) {
    Cmp(a, b) != Greater
  }

  predicate Lt(a: seq<Byte>, b: seq<Byte>) {
    Cmp(a, b) == Less
  }

  lemma {:induction false} CmpEqual(a: seq<Byte>, b: seq<Byte>)
    ensures Cmp(a, b) == Equal <==> a == b
  {
    if a != [] && b != [] {
      CmpEqual(a[1..], b[1..]);
      assert a == [a[0]] + a[1..] && b == [b[0]] + b[1..];
    }
  }

  lemma {:induction false} CmpFlip(a: seq<Byte>, b: seq<Byte>)
    ensures Cmp(b, a) == Cmp(a, b).Reverse()
  {
    if a != [] && b != [] {
      CmpFlip(a[1..], b[1..]);
    }
  }

  lemma {:induction false} LtTransitive(a: seq<Byte>, b: seq<Byte>, c: seq<Byte>)
    requires Lt(a, b) && Le(b, c)
    ensures Lt(a, c)
  {
    if a != [] && b != [] && c != [] && a[0] == b[0] == c[0] {
      LtTransitive(a[1..], b[1..], c[1..]);
    }
  }

  lemma LeTransitive(a: seq<Byte>, b: seq<Byte>, c: seq<Byte>)
    requires Le(a, b) && Le(b, c)
    ensures Le(a, c)
  {
    CmpEqual(a, b);
    if a != b {
      LtTransitive(a, b, c);
    }
  }

  /** Equal-length heads decide the order unless they are the same. */
  lemma {:induction false} CmpConcat(a: seq<Byte>, b: seq<Byte>, x: seq<Byte>, y: seq<Byte>)
    requires |a| == |b|
    ensures Cmp(a + x, b + y) == Cmp(a, b).Then(Cmp(x, y))
  {
    if a == [] {
      assert a + x == x && b + y == y;
    } else {
      assert (a + x)[1..] == a[1..] + x && (b + y)[1..] == b[1..] + y;
      CmpConcat(a[1..], b[1..], x, y);
    }
  }

  lemma CmpSamePrefix(p: seq<Byte>, x: seq<Byte>, y: seq<Byte>)
    ensures Cmp(p + x, p + y) == Cmp(x, y)
  {
    CmpConcat(p, p, x, y);
    CmpEqual(p, p);
  }

  lemma {:induction false} BeyondPrefix(q: seq<Byte>, k: seq<Byte>, x: seq<Byte>, y: seq<Byte>)
    requires !(q <= k)
    ensures Cmp(q + x, k) == Cmp(q + y, k)
  {
    if k != [] && q[0] == k[0] {
      assert q == [q[0]] + q[1..] && k == [k[0]] + k[1..];
      assert (q + x)[1..] == q[1..] + x && (q + y)[1..] == q[1..] + y;
      BeyondPrefix(q[1..], k[1..], x, y);
    }
  }

  lemma WithinPrefix(q: seq<Byte>, k: seq<Byte>, x: seq<Byte>)
    requires q <= k
    ensures Cmp(q + x, k) == Cmp(x, k[|q|..])
  {
    assert k == q + k[|q|..];
    CmpSamePrefix(q, x, k[|q|..]);
  }

  lemma PrefixLe(p: seq<Byte>, k: seq<Byte>)
    requires p <= k
    ensures Le(p, k)
  {
    WithinPrefix(p, k, []);
    assert p + [] == p;
  }

  // ─── Big-endian integers ───────────────────────────────────────────────────

  function Pow256(k: nat): nat
    ensures Pow256(k) > 0
  {
    if k == 0 then 1 else 256 * Pow256(k - 1)
  }

  /** `n` as `k` big-endian bytes (high bytes beyond the width are dropped). */
  function BigEndian(n: nat, k: nat): (s: seq<Byte>)
    ensures |s| == k
  {
    if k == 0 then [] else BigEndian(n / 256, k - 1) + [n % 256]
  }

  function FromBigEndian(s: seq<Byte>): (n: nat)
    ensures n < Pow256(|s|)
  {
    if s == [] then 0 else FromBigEndian(s[..|s| - 1]) * 256 + s[|s| - 1]
  }

  lemma {:induction false} BigEndianRoundTrip(n: nat, k: nat)
    ensures n < Pow256(k) ==> FromBigEndian(BigEndian(n, k)) == n
  {
    if k > 0 {
      BigEndianRoundTrip(n / 256, k - 1);
      assert BigEndian(n, k)[..k - 1] == BigEndian(n / 256, k - 1);
    }
  }

  lemma {:induction false} FromBigEndianRoundTrip(s: seq<Byte>)
    ensures BigEndian(FromBigEndian(s), |s|) == s
  {
    if s != [] {
      FromBigEndianRoundTrip(s[..|s| - 1]);
      assert s == s[..|s| - 1] + [s[|s| - 1]];
    }
  }

  /** Byte order of equal-width big-endian integers is integer order. */
  lemma {:induction false} BigEndianOrder(n: nat, m: nat, k: nat)
    requires n < Pow256(k) && m < Pow256(k)
    ensures Cmp(BigEndian(n, k), BigEndian(m, k)) == IntCmp(n, m)
  {
    if k > 0 {
      BigEndianOrder(n / 256, m / 256, k - 1);
      CmpConcat(BigEndian(n / 256, k - 1), BigEndian(m / 256, k - 1), [n % 256], [m % 256]);
    }
  }

  lemma Pow256Values()
    ensures Pow256(2) == 0x1_0000
    ensures Pow256(6) == 0x1_0000_0000_0000
    ensures Pow256(8) == 0x1_0000_0000_0000_0000
  {
    assert Pow256(1) == 256;
    assert Pow256(2) == 0x1_0000;
    assert Pow256(3) == 0x100_0000;
    assert Pow256(4) == 0x1_0000_0000;
    assert Pow256(5) == 0x100_0000_0000;
    assert Pow256(6) == 0x1_0000_0000_0000;
    assert Pow256(7) == 0x100_0000_0000_0000;
  }
}
