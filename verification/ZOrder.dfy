/** Two 21-bit coordinates interleaved into one 42-bit number and back. */
module ZOrder {
  import opened Values

  /** Bitwise or. */
  function Or(a: nat, b: nat): nat {
    if a == 0 && b == 0 then 0
    else 2 * Or(a / 2, b / 2) + (if a % 2 == 1 || b % 2 == 1 then 1 else 0)
  }

  /** `v >> i`. */
  function Shr(v: nat, i: nat): nat {
    if i == 0 then v else Shr(v, i - 1) / 2
  }

  /** The low `n` bits of `v`, bit i at position 2i. */
  function Spread(v: nat, n: nat): nat
    decreases n
  {
    if n == 0 then 0 else v % 2 + 4 * Spread(v / 2, n - 1)
  }

  /** Every other bit of `z`, `n` of them. */
  function Compact(z: nat, n: nat): nat
    decreases n
  {
    if n == 0 then 0 else z % 2 + 2 * Compact(z / 4, n - 1)
  }

  lemma {:induction false} OrDisjoint(a: nat, c: nat, k: nat)
    requires a < Pow2(k)
    ensures Or(a, c * Pow2(k)) == a + c * Pow2(k)
    decreases k
  {
    if k == 0 {
      OrZero(c);
    } else {
      var b := c * Pow2(k);
      assert b == 2 * (c * Pow2(k - 1)) by { assert Pow2(k) == 2 * Pow2(k - 1); }
      OrDisjoint(a / 2, c, k - 1);
    }
  }

  lemma {:induction false} OrZero(c: nat)
    ensures Or(0, c) == c
  {
    if c > 0 { OrZero(c / 2); }
  }

  lemma Regroup(result: nat, p: nat, bit: nat, step: nat, rest: nat)
    requires result < p && bit < 2 && step >= 2
    ensures result + p * (bit + step * rest) == result + bit * p + step * p * rest
    ensures result + bit * p < step * p
  {
    assert p * (bit + step * rest) == p * bit + p * (step * rest);
    assert p * (step * rest) == step * p * rest;
    assert bit == 0 || bit == 1;
    MulMonotone(2, step, p);
  }

  method SpreadBits(v: nat, n: nat) returns (result: nat)
    ensures result == Spread(v, n)
  {
    result := 0;
    for i := 0 to n
      invariant result < Pow2(i * 2)
      invariant Spread(v, n) == result + Pow2(i * 2) * Spread(Shr(v, i), n - i)
    {
      SpreadStep(result, v, i, n - i);
      result := Or(result, Shr(v, i) % 2 * Pow2(i * 2));
    }
  }

  lemma SpreadStep(result: nat, v: nat, i: nat, m: nat)
    requires result < Pow2(i * 2) && m > 0
    ensures var next := Or(result, Shr(v, i) % 2 * Pow2(i * 2));
            && next < Pow2((i + 1) * 2)
            && result + Pow2(i * 2) * Spread(Shr(v, i), m)
               == next + Pow2((i + 1) * 2) * Spread(Shr(v, i + 1), m - 1)
  {
    var k, w := i * 2, Shr(v, i);
    OrDisjoint(result, w % 2, k);
    PowFour(k);
    Regroup(result, Pow2(k), w % 2, 4, Spread(w / 2, m - 1));
  }

  lemma PowFour(k: nat)
    ensures Pow2(k + 2) == 4 * Pow2(k)
  {
    assert Pow2(k + 1) == 2 * Pow2(k);
  }

  method CompactBits(z: nat, n: nat) returns (result: nat)
    ensures result == Compact(z, n)
  {
    result := 0;
    for i := 0 to n
      invariant result < Pow2(i)
      invariant Compact(z, n) == result + Pow2(i) * Compact(Shr(z, i * 2), n - i)
    {
      CompactStep(result, z, i, n - i);
      result := Or(result, Shr(z, i * 2) % 2 * Pow2(i));
    }
  }

  lemma CompactStep(result: nat, z: nat, i: nat, m: nat)
    requires result < Pow2(i) && m > 0
    ensures var next := Or(result, Shr(z, i * 2) % 2 * Pow2(i));
            && next < Pow2(i + 1)
            && result + Pow2(i) * Compact(Shr(z, i * 2), m)
               == next + Pow2(i + 1) * Compact(Shr(z, (i + 1) * 2), m - 1)
  {
    var k := i * 2;
    var w := Shr(z, k);
    OrDisjoint(result, w % 2, i);
    assert Shr(z, k + 1) == w / 2 && Shr(z, k + 2) == w / 4;
    Regroup(result, Pow2(i), w % 2, 2, Compact(w / 4, m - 1));
  }

  /** Coordinates have 21 bits. */
  const BITS: nat := 21
  const MASK21: nat := 0x20_0000
  const MASK42: nat := 0x400_0000_0000

  /** Bits of `y` at even, of `z` at odd positions. */
  function Interleave(y: nat, z: nat, n: nat): nat
    decreases n
  {
    if n == 0 then 0 else y % 2 + 2 * (z % 2) + 4 * Interleave(y / 2, z / 2, n - 1)
  }

  lemma {:induction false} OrInterleaves(y: nat, z: nat, n: nat)
    ensures Or(Spread(y, n), 2 * Spread(z, n)) == Interleave(y, z, n)
    decreases n
  {
    if n > 0 {
      var s, t := Spread(y / 2, n - 1), Spread(z / 2, n - 1);
      OrInterleaves(y / 2, z / 2, n - 1);
      var a, b := y % 2 + 4 * s, 2 * (z % 2 + 4 * t);
      OrTwice(y % 2, z % 2, s, 2 * t);
    }
  }

  lemma OrOnce(a: nat, b: nat, s: nat, t: nat)
    requires a < 2 && b < 2 && a + b < 2
    ensures Or(a + 2 * s, b + 2 * t) == a + b + 2 * Or(s, t)
  {
  }

  lemma OrTwice(a: nat, b: nat, s: nat, t: nat)
    requires a < 2 && b < 2
    ensures Or(a + 4 * s, 2 * b + 4 * t) == a + 2 * b + 4 * Or(s, t)
  {
    OrOnce(a, 0, 2 * s, b + 2 * t);
    OrOnce(0, b, s, t);
  }

  /** All bits of `y` at even, all bits of `z` at odd positions. */
  function Woven(y: nat, z: nat): nat {
    if y == 0 && z == 0 then 0 else y % 2 + 2 * (z % 2) + 4 * Woven(y / 2, z / 2)
  }

  /** The bits at even positions. */
  function Evens(z: nat): nat {
    if z == 0 then 0 else z % 2 + 2 * Evens(z / 4)
  }

  lemma {:induction false} InterleaveIsWoven(y: nat, z: nat, n: nat)
    requires y < Pow2(n) && z < Pow2(n)
    ensures Interleave(y, z, n) == Woven(y, z)
    decreases n
  {
    if n > 0 { InterleaveIsWoven(y / 2, z / 2, n - 1); }
  }

  lemma {:induction false} CompactIsEvens(z: nat, n: nat)
    requires z < Pow2(2 * n)
    ensures Compact(z, n) == Evens(z)
    decreases n
  {
    if n > 0 {
      PowFour(2 * (n - 1));
      CompactIsEvens(z / 4, n - 1);
    }
  }

  lemma CompactStepLow(m: nat, r: nat, n: nat)
    requires n > 0
    ensures Compact(4 * m + r, n) == r % 2 + 2 * Compact(m + r / 4, n - 1)
  {
    Quarter(r % 4, m + r / 4);
    assert 4 * m + r == r % 4 + 4 * (m + r / 4);
    LowBit(r, m);
  }

  lemma FourTimes(q: nat, n: nat)
    requires n > 0
    ensures q * Pow2(2 * n) == 4 * (q * Pow2(2 * (n - 1)))
  {
    var k := 2 * (n - 1);
    assert 2 * n == k + 2;
    PowFour(k);
    MulFour(q, Pow2(k), Pow2(k + 2));
  }

  lemma MulFour(q: nat, p: nat, big: nat)
    requires big == 4 * p
    ensures q * big == 4 * (q * p)
  {
  }

  /** Only the low 2n bits matter. */
  lemma {:induction false} CompactLow(q: nat, r: nat, n: nat)
    ensures Compact(q * Pow2(2 * n) + r, n) == Compact(r, n)
    decreases n
  {
    if n > 0 {
      var m := q * Pow2(2 * (n - 1));
      FourTimes(q, n);
      CompactStepLow(m, r, n);
      CompactLow(q, r / 4, n - 1);
    }
  }

  lemma CompactModulo(z: nat, n: nat)
    ensures Compact(z, n) == Evens(z % Pow2(2 * n))
  {
    var p := Pow2(2 * n);
    assert z == z / p * p + z % p;
    CompactLow(z / p, z % p, n);
    CompactIsEvens(z % p, n);
  }

  method Combine(y: nat, z: nat, n: nat) returns (r: nat)
    requires y < Pow2(n) && z < Pow2(n)
    ensures r == Woven(y, z)
  {
    var a := SpreadBits(y, n);
    var b := SpreadBits(z, n);
    OrInterleaves(y, z, n);
    InterleaveIsWoven(y, z, n);
    r := Or(a, b * 2);
  }

  method Separate(val: nat, n: nat) returns (r: nat)
    ensures r == Evens(val % Pow2(2 * n))
  {
    CompactModulo(val, n);
    r := CompactBits(val, n);
  }

  method Encode(y: nat, z: nat) returns (r: nat)
    ensures r == Woven(y % MASK21, z % MASK21)
  {
    Pow2Bits();
    r := Combine(y % MASK21, z % MASK21, BITS);
  }

  method Decode(val: nat) returns (y: nat, z: nat)
    ensures y == Evens(val % MASK42) && z == Evens(val / 2 % MASK42)
  {
    Pow2Bits();
    y := Separate(val, BITS);
    z := Separate(val / 2, BITS);
  }

  lemma Pow2Bits()
    ensures Pow2(BITS) == MASK21 && Pow2(2 * BITS) == MASK42
  {
    assert Pow2(7) == 128;
    Pow2Add(7, 7);
    Pow2Add(14, 7);
    Pow2Add(21, 21);
  }

  lemma Halves(b: nat, c: nat, i: nat)
    requires b < 2 && c < 2
    ensures var e := b + 2 * c + 4 * i;
            e % 2 == b && e / 4 == i && e / 2 == c + 2 * i
  {
  }

  lemma Quarter(low: nat, h: nat)
    requires low < 4
    ensures (low + 4 * h) / 4 == h
  {
  }

  lemma LowBit(low: nat, m: nat)
    ensures (low + 4 * m) % 2 == low % 2
  {
    assert low + 4 * m == low + 2 * (2 * m);
  }

  lemma OddHalf(c: nat, i: nat)
    requires c < 2
    ensures (c + 2 * i) / 4 == i / 2
  {
    Quarter(c + 2 * (i % 2), i / 2);
    assert c + 2 * i == c + 2 * (i % 2) + 4 * (i / 2);
  }

  lemma Evenness(c: nat, i: nat)
    requires c < 2
    ensures (c + 2 * i) % 2 == c
  {
  }

  lemma {:induction false} EvensOfWoven(y: nat, z: nat)
    ensures Evens(Woven(y, z)) == y
  {
    if y != 0 || z != 0 {
      EvensOfWoven(y / 2, z / 2);
      Halves(y % 2, z % 2, Woven(y / 2, z / 2));
    }
  }

  lemma {:induction false} OddsOfWoven(y: nat, z: nat)
    ensures Evens(Woven(y, z) / 2) == z
  {
    if y != 0 || z != 0 {
      OddsOfWoven(y / 2, z / 2);
      var i := Woven(y / 2, z / 2);
      Halves(y % 2, z % 2, i);
      OddHalf(z % 2, i);
      Evenness(z % 2, i);
    }
  }

  lemma {:induction false} WovenBound(y: nat, z: nat, n: nat)
    requires y < Pow2(n) && z < Pow2(n)
    ensures Woven(y, z) < Pow2(2 * n)
    decreases n
  {
    if n > 0 {
      PowFour(2 * (n - 1));
      WovenBound(y / 2, z / 2, n - 1);
    }
  }

  lemma SmallMod(e: nat)
    requires e < MASK42
    ensures e % MASK42 == e && e / 2 % MASK42 == e / 2
  {
  }

  /** Decoding inverts encoding for every pair of 21-bit coordinates, in 42 bits. */
  lemma DecodeInvertsEncode(y: nat, z: nat)
    requires y < MASK21 && z < MASK21
    ensures Woven(y, z) < MASK42
    ensures Evens(Woven(y, z) % MASK42) == y && Evens(Woven(y, z) / 2 % MASK42) == z
  {
    assert Woven(y, z) < MASK42 by {
      Pow2Bits();
      WovenBound(y, z, BITS);
    }
    SmallMod(Woven(y, z));
    EvensOfWoven(y, z);
    OddsOfWoven(y, z);
  }
}
