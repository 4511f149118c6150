/**
 The 24-byte primary key: lobe, 48-bit gravity hash, satellite, z-order of type
 and time, and a sequence number, all big-endian.
 */
module SpatialKeys {
  import opened Bytes
  import opened FieldDictionary
  import opened Sequences
  import opened SortKeys
  import opened ZOrder

  const U32: nat := 0x1_0000_0000
  const U48: nat := 0x1_0000_0000_0000
  const SIZE: nat := 24

  datatype SpatialKey =
    SpatialKey(lobe: U16, gravity: nat, sat: U16, typeId: U16, timestamp: nat, seqno: nat)

  /** `new_with_sat`; `new` is the same with satellite 0. */
  function NewWithSat(lobe: U16, gravity: nat, sat: U16, typeId: U16, timestamp: nat, seqno: nat): (k: SpatialKey)
    requires gravity < U64 && timestamp < U32 && seqno < U64
    ensures Constructed(k)
  {
    SpatialKey(lobe, gravity % U48, sat, typeId, timestamp % MASK21, seqno)
  }

  /** What every key built by the constructors satisfies. */
  predicate Constructed(k: SpatialKey) {
    k.gravity < U48 && k.timestamp < MASK21 && k.seqno < U64
  }

  function ZOf(k: SpatialKey): nat {
    Woven(k.typeId, k.timestamp % MASK21)
  }

  function KeyBytes(k: SpatialKey): (s: seq<Byte>)
    ensures |s| == SIZE
  {
    BigEndian(k.lobe, 2)
      + (BigEndian(k.gravity, 6) + (BigEndian(k.sat, 2) + (BigEndian(ZOf(k), 6) + BigEndian(k.seqno, 8))))
  }

  function FromBytes(s: seq<Byte>): SpatialKey
    requires |s| == SIZE
  {
    Pow256Values();
    var z := FromBigEndian(s[10..16]);
    SpatialKey(FromBigEndian(s[..2]), FromBigEndian(s[2..8]), FromBigEndian(s[8..10]),
               Evens(z % MASK42) % 0x1_0000, Evens(z / 2 % MASK42), FromBigEndian(s[16..24]))
  }

  /** `copy_from_slice` right behind the part already filled. */
  method CopyInto(buf: array<Byte>, at: nat, src: seq<Byte>)
    requires at + |src| <= buf.Length
    modifies buf
    ensures buf[..at + |src|] == old(buf[..at]) + src
    ensures buf[at + |src|..] == old(buf[at + |src|..])
  {
    for i := 0 to |src|
      invariant buf[..at + i] == old(buf[..at]) + src[..i]
      invariant buf[at + |src|..] == old(buf[at + |src|..])
    {
      buf[at + i] := src[i];
      assert buf[..at + i + 1] == old(buf[..at]) + src[..i] + [src[i]];
    }
  }

  lemma Joined(a: seq<Byte>, b: seq<Byte>, c: seq<Byte>, d: seq<Byte>, e: seq<Byte>)
    ensures a + b + c + d + e == a + (b + (c + (d + e)))
  {
  }

  method ToBytes(k: SpatialKey) returns (buf: array<Byte>)
    ensures fresh(buf) && buf[..] == KeyBytes(k)
  {
    var z2d := Encode(k.typeId % MASK21, k.timestamp);
    assert z2d == ZOf(k);
    buf := new Byte[24](_ => 0);
    var lobe, gravity, sat := BigEndian(k.lobe, 2), BigEndian(k.gravity, 6), BigEndian(k.sat, 2);
    var z, seqno := BigEndian(z2d, 6), BigEndian(k.seqno, 8);
    FillKey(buf, lobe, gravity, sat, z, seqno);
    Joined(lobe, gravity, sat, z, seqno);
  }

  method FillKey(buf: array<Byte>, lobe: seq<Byte>, gravity: seq<Byte>, sat: seq<Byte>, z: seq<Byte>, seqno: seq<Byte>)
    requires buf.Length == 24 && |lobe| == 2 && |gravity| == 6 && |sat| == 2 && |z| == 6 && |seqno| == 8
    modifies buf
    ensures buf[..] == lobe + gravity + sat + z + seqno
  {
    CopyInto(buf, 0, lobe);
    assert buf[..2] == lobe;
    CopyInto(buf, 2, gravity);
    CopyInto(buf, 8, sat);
    CopyInto(buf, 10, z);
    CopyInto(buf, 16, seqno);
    assert buf[..24] == buf[..];
  }

  // ─── Decoding and order ────────────────────────────────────────────────────

  lemma ZBound(k: SpatialKey)
    ensures ZOf(k) < U48
  {
    DecodeInvertsEncode(k.typeId, k.timestamp % MASK21);
  }

  lemma Slices(k: SpatialKey)
    ensures var s := KeyBytes(k);
            && s[..2] == BigEndian(k.lobe, 2) && s[2..8] == BigEndian(k.gravity, 6)
            && s[8..10] == BigEndian(k.sat, 2) && s[10..16] == BigEndian(ZOf(k), 6)
            && s[16..24] == BigEndian(k.seqno, 8)
  {
  }

  lemma WordRoundTrip(n: nat, k: nat)
    requires n < Pow256(k)
    ensures FromBigEndian(BigEndian(n, k)) == n
  {
    BigEndianRoundTrip(n, k);
  }

  /** Decoding inverts encoding for every key the constructors build. */
  lemma FromBytesInverts(k: SpatialKey)
    requires Constructed(k)
    ensures FromBytes(KeyBytes(k)) == k
  {
    var z := ZOf(k);
    Slices(k);
    assert FromBigEndian(BigEndian(z, 6)) == z by { Pow256Values(); ZBound(k); WordRoundTrip(z, 6); }
    assert FromBigEndian(BigEndian(k.lobe, 2)) == k.lobe by { Pow256Values(); WordRoundTrip(k.lobe, 2); }
    assert FromBigEndian(BigEndian(k.gravity, 6)) == k.gravity by { Pow256Values(); WordRoundTrip(k.gravity, 6); }
    assert FromBigEndian(BigEndian(k.sat, 2)) == k.sat by { Pow256Values(); WordRoundTrip(k.sat, 2); }
    assert FromBigEndian(BigEndian(k.seqno, 8)) == k.seqno by { Pow256Values(); WordRoundTrip(k.seqno, 8); }
    ZRoundTrip(k);
  }

  lemma SmallMod21(t: nat)
    requires t < MASK21
    ensures t % MASK21 == t
  {
  }

  lemma SmallU16(n: U16)
    ensures n % 0x1_0000 == n
  {
  }

  lemma ZRoundTrip(k: SpatialKey)
    requires Constructed(k)
    ensures Evens(ZOf(k) % MASK42) % 0x1_0000 == k.typeId && Evens(ZOf(k) / 2 % MASK42) == k.timestamp
  {
    assert k.timestamp % MASK21 == k.timestamp by { SmallMod21(k.timestamp); }
    assert Evens(ZOf(k) % MASK42) == k.typeId && Evens(ZOf(k) / 2 % MASK42) == k.timestamp by {
      DecodeInvertsEncode(k.typeId, k.timestamp);
    }
    SmallU16(k.typeId);
  }

  function KeyCmp(a: SpatialKey, b: SpatialKey): Ordering {
    IntCmp(a.lobe, b.lobe).Then(IntCmp(a.gravity, b.gravity).Then(IntCmp(a.sat, b.sat).Then(
      IntCmp(ZOf(a), ZOf(b)).Then(IntCmp(a.seqno, b.seqno)))))
  }

  lemma WordThen(n: nat, m: nat, k: nat, x: seq<Byte>, y: seq<Byte>)
    requires n < Pow256(k) && m < Pow256(k)
    ensures Cmp(BigEndian(n, k) + x, BigEndian(m, k) + y) == IntCmp(n, m).Then(Cmp(x, y))
  {
    BigEndianOrder(n, m, k);
    CmpConcat(BigEndian(n, k), BigEndian(m, k), x, y);
  }

  function AfterSat(k: SpatialKey): seq<Byte> {
    BigEndian(ZOf(k), 6) + BigEndian(k.seqno, 8)
  }

  lemma TailOrder(a: SpatialKey, b: SpatialKey)
    requires Constructed(a) && Constructed(b)
    ensures Cmp(AfterSat(a), AfterSat(b)) == IntCmp(ZOf(a), ZOf(b)).Then(IntCmp(a.seqno, b.seqno))
  {
    Pow256Values();
    ZBound(a);
    ZBound(b);
    WordThen(ZOf(a), ZOf(b), 6, BigEndian(a.seqno, 8), BigEndian(b.seqno, 8));
    BigEndianOrder(a.seqno, b.seqno, 8);
  }

  /** Byte order of keys is lexicographic order of (lobe, gravity, sat, z, seq). */
  lemma KeyOrder(a: SpatialKey, b: SpatialKey)
    requires Constructed(a) && Constructed(b)
    ensures Cmp(KeyBytes(a), KeyBytes(b)) == KeyCmp(a, b)
  {
    Pow256Values();
    TailOrder(a, b);
    var x2, y2 := BigEndian(a.sat, 2) + AfterSat(a), BigEndian(b.sat, 2) + AfterSat(b);
    WordThen(a.sat, b.sat, 2, AfterSat(a), AfterSat(b));
    WordThen(a.gravity, b.gravity, 6, x2, y2);
    WordThen(a.lobe, b.lobe, 2, BigEndian(a.gravity, 6) + x2, BigEndian(b.gravity, 6) + y2);
  }

  // ─── Ranges ────────────────────────────────────────────────────────────────

  function Fill(b: Byte, n: nat): seq<Byte> {
    seq(n, _ => b)
  }

  /** A prefix padded to the full key length: zeros for the start, 0xFF for the end of its range. */
  function Padded(p: seq<Byte>, b: Byte): (k: seq<Byte>)
    requires |p| <= SIZE
    ensures |k| == SIZE
  {
    p + Fill(b, SIZE - |p|)
  }

  function GravityPrefix(lobe: U16, gravity: nat): seq<Byte> {
    BigEndian(lobe, 2) + BigEndian(gravity % U48, 6)
  }

  function SatellitePrefix(lobe: U16, gravity: nat, sat: U16): seq<Byte> {
    GravityPrefix(lobe, gravity) + BigEndian(sat, 2)
  }

  /** A zeroed buffer that starts with the given prefix. */
  method ZeroPadded(prefix: seq<Byte>) returns (buf: array<Byte>)
    requires |prefix| <= SIZE
    ensures fresh(buf) && buf.Length == SIZE && buf[..] == Padded(prefix, 0)
  {
    buf := new Byte[24](_ => 0);
    assert buf[|prefix|..] == Fill(0, SIZE - |prefix|);
    CopyInto(buf, 0, prefix);
    assert buf[..|prefix|] == prefix;
    assert buf[..] == buf[..|prefix|] + buf[|prefix|..];
  }

  /** The buffer's tail saturated behind the prefix. */
  method Saturate(buf: array<Byte>, prefix: seq<Byte>)
    requires buf.Length == SIZE && |prefix| <= SIZE && buf[..] == Padded(prefix, 0)
    modifies buf
    ensures buf[..] == Padded(prefix, 0xFF)
  {
    assert buf[..|prefix|] == buf[..][..|prefix|] == prefix;
    CopyInto(buf, |prefix|, Fill(0xFF, SIZE - |prefix|));
    assert buf[..SIZE] == buf[..];
  }

  method PrefixForGravity(lobe: U16, gravity: nat) returns (min: array<Byte>, max: array<Byte>)
    ensures fresh(min) && min[..] == Padded(GravityPrefix(lobe, gravity), 0)
    ensures fresh(max) && max[..] == Padded(GravityPrefix(lobe, gravity), 0xFF)
  {
    var gh := gravity % U48;
    min := ZeroPadded(BigEndian(lobe, 2) + BigEndian(gh, 6));
    max := ZeroPadded(BigEndian(lobe, 2) + BigEndian(gh, 6));
    Saturate(max, BigEndian(lobe, 2) + BigEndian(gh, 6));
  }

  method PrefixForSatellite(lobe: U16, gravity: nat, sat: U16) returns (min: array<Byte>, max: array<Byte>)
    ensures fresh(min) && min[..] == Padded(SatellitePrefix(lobe, gravity, sat), 0)
    ensures fresh(max) && max[..] == Padded(SatellitePrefix(lobe, gravity, sat), 0xFF)
  {
    var gh := gravity % U48;
    min := ZeroPadded(BigEndian(lobe, 2) + BigEndian(gh, 6) + BigEndian(sat, 2));
    max := ZeroPadded(BigEndian(lobe, 2) + BigEndian(gh, 6) + BigEndian(sat, 2));
    Saturate(max, BigEndian(lobe, 2) + BigEndian(gh, 6) + BigEndian(sat, 2));
  }

  predicate Between(k: seq<Byte>, min: seq<Byte>, max: seq<Byte>) {
    Le(min, k) && Le(k, max)
  }

  lemma {:induction false} FillBounds(r: seq<Byte>)
    ensures Le(Fill(0, |r|), r) && Le(r, Fill(0xFF, |r|))
  {
    if r != [] {
      FillBounds(r[1..]);
      assert Fill(0, |r|)[1..] == Fill(0, |r| - 1) && Fill(0xFF, |r|)[1..] == Fill(0xFF, |r| - 1);
    }
  }

  /** The padded range holds exactly the full-length keys that carry the prefix. */
  lemma RangeIffPrefix(p: seq<Byte>, k: seq<Byte>)
    requires |k| == SIZE && |p| <= SIZE
    ensures Between(k, Padded(p, 0), Padded(p, 0xFF)) <==> p <= k
  {
    var zeros, ones := Fill(0, SIZE - |p|), Fill(0xFF, SIZE - |p|);
    CmpFlip(k, p + ones);
    if p <= k {
      WithinPrefix(p, k, zeros);
      WithinPrefix(p, k, ones);
      FillBounds(k[|p|..]);
      CmpFlip(k[|p|..], ones);
    } else {
      BeyondPrefix(p, k, zeros, ones);
      CmpEqual(p + zeros, k);
    }
  }

  function RangeScan(keys: seq<seq<Byte>>, min: seq<Byte>, max: seq<Byte>): seq<seq<Byte>> {
    Keep(keys, k => Between(k, min, max))
  }

  /** A key is in the gravity range of (lobe, gravity) exactly when it was placed there. */
  lemma GravityRangeIff(k: SpatialKey, lobe: U16, gravity: nat)
    requires Constructed(k)
    ensures Between(KeyBytes(k), Padded(GravityPrefix(lobe, gravity), 0), Padded(GravityPrefix(lobe, gravity), 0xFF))
            <==> k.lobe == lobe && k.gravity == gravity % U48
  {
    var p, s := GravityPrefix(lobe, gravity), KeyBytes(k);
    RangeIffPrefix(p, s);
    Slices(k);
    Pow256Values();
    SameWords(k.lobe, lobe, k.gravity, gravity % U48);
    assert s[..8] == s[..2] + s[2..8];
  }

  lemma SameWords(a: nat, b: nat, c: nat, d: nat)
    requires a < Pow256(2) && b < Pow256(2) && c < Pow256(6) && d < Pow256(6)
    ensures BigEndian(a, 2) + BigEndian(c, 6) == BigEndian(b, 2) + BigEndian(d, 6) <==> a == b && c == d
  {
    BigEndianRoundTrip(a, 2);
    BigEndianRoundTrip(b, 2);
    BigEndianRoundTrip(c, 6);
    BigEndianRoundTrip(d, 6);
    var x, y := BigEndian(a, 2) + BigEndian(c, 6), BigEndian(b, 2) + BigEndian(d, 6);
    assert x[..2] == BigEndian(a, 2) && x[2..] == BigEndian(c, 6);
    assert y[..2] == BigEndian(b, 2) && y[2..] == BigEndian(d, 6);
  }

  function SatOf(k: seq<Byte>): seq<Byte> {
    if |k| == SIZE then k[8..10] else []
  }

  lemma SatelliteIff(k: seq<Byte>, lobe: U16, gravity: nat, sat: U16)
    requires |k| == SIZE
    ensures SatellitePrefix(lobe, gravity, sat) <= k
            <==> GravityPrefix(lobe, gravity) <= k && SatOf(k) == BigEndian(sat, 2)
  {
    var p, q := GravityPrefix(lobe, gravity), BigEndian(sat, 2);
    assert k[..10] == k[..8] + k[8..10];
    if p + q <= k {
      assert (p + q)[..8] == p && (p + q)[8..] == q;
    }
  }

  /**
   Scanning one satellite is scanning its whole gravity bucket, in the same
   order, and keeping the keys of that satellite.
   */
  lemma SatelliteScanIsPartOfBucket(keys: seq<seq<Byte>>, lobe: U16, gravity: nat, sat: U16)
    requires forall k | k in keys :: |k| == SIZE
    ensures var p, q := GravityPrefix(lobe, gravity), SatellitePrefix(lobe, gravity, sat);
            RangeScan(keys, Padded(q, 0), Padded(q, 0xFF))
            == Keep(RangeScan(keys, Padded(p, 0), Padded(p, 0xFF)), k => SatOf(k) == BigEndian(sat, 2))
  {
    var p, q := GravityPrefix(lobe, gravity), SatellitePrefix(lobe, gravity, sat);
    forall k | k in keys
      ensures Between(k, Padded(q, 0), Padded(q, 0xFF))
              <==> Between(k, Padded(p, 0), Padded(p, 0xFF)) && SatOf(k) == BigEndian(sat, 2)
    {
      RangeIffPrefix(p, k);
      RangeIffPrefix(q, k);
      SatelliteIff(k, lobe, gravity, sat);
    }
    KeepTwice(keys, k => Between(k, Padded(p, 0), Padded(p, 0xFF)), k => SatOf(k) == BigEndian(sat, 2),
              k => Between(k, Padded(q, 0), Padded(q, 0xFF)));
  }
}
