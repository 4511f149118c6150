/** Unsigned LEB128 varints of up to 128 bits, written and read byte by byte. */
module Leb128 {
  import opened Bytes
  import opened Values

  const U128: nat := 0x1_0000_0000_0000_0000_0000_0000_0000_0000

  /** Seven bits per byte, low bits first, high bit set on all but the last. */
  function Leb(n: nat): (s: seq<Byte>)
    ensures s != []
  {
    if n < 128 then [n] else [n % 128 + 128] + Leb(n / 128)
  }

  /** The read loop from a given accumulator and shift. */
  function ReadFrom(bytes: seq<Byte>, shift: nat, acc: nat): Option<(nat, seq<Byte>)>
    decreases |bytes|
  {
    if bytes == [] || shift >= 128 then None
    else
      var next := acc + ((bytes[0] % 128) * Pow2(shift)) % U128;
      if bytes[0] < 128 then Some((next, bytes[1..])) else ReadFrom(bytes[1..], shift + 7, next)
  }

  function Read(bytes: seq<Byte>): Option<(nat, seq<Byte>)> {
    ReadFrom(bytes, 0, 0)
  }

  /** `write_leb128`: push bytes until the value is used up. */
  method Write(buf: seq<Byte>, value: nat) returns (out: seq<Byte>)
    ensures out == buf + Leb(value)
  {
    out := buf;
    var v := value;
    while true
      invariant out + Leb(v) == buf + Leb(value)
      decreases v
    {
      var byte := v % 128;
      ghost var before := out;
      ghost var rest := v;
      v := v / 128;
      if v == 0 {
        assert Leb(rest) == [byte];
        out := out + [byte];
        return;
      }
      out := out + [byte + 128];
      assert out + Leb(v) == before + ([byte + 128] + Leb(v));
    }
  }

  /** `read_leb128`: stop at the first byte without the continuation bit. */
  method ReadVarint(bytes: seq<Byte>) returns (r: Option<(nat, seq<Byte>)>)
    ensures r == Read(bytes)
  {
    var value: nat, shift: nat, i: nat := 0, 0, 0;
    assert bytes[0..] == bytes;
    while i < |bytes|
      invariant i <= |bytes|
      invariant Read(bytes) == ReadFrom(bytes[i..], shift, value)
    {
      var byte := bytes[i];
      if shift >= 128 {
        return None;
      }
      value := value + ((byte % 128) * Pow2(shift)) % U128;
      assert bytes[i..][1..] == bytes[i + 1..];
      i := i + 1;
      if byte < 128 {
        return Some((value, bytes[i..]));
      }
      shift := shift + 7;
    }
    return None;
  }

  lemma Pow2Is128()
    ensures Pow2(7) == 128 && Pow2(128) == U128
  {
    Pow2Values();
    Pow2Add(64, 64);
    assert Pow2(7) == 128;
  }

  lemma StepFacts(n: nat, shift: nat)
    requires n * Pow2(shift) < U128 && n >= 128
    ensures var lo, hi := n % 128, n / 128;
            && hi > 0
            && lo * Pow2(shift) < U128
            && hi * Pow2(shift + 7) < U128
            && lo * Pow2(shift) + hi * Pow2(shift + 7) == n * Pow2(shift)
  {
    Pow2Is128();
    var lo, hi := n % 128, n / 128;
    assert n == 128 * hi + lo;
    Pow2Add(7, shift);
    Distribute(hi, lo, Pow2(shift));
  }

  /** One step of the read loop on a byte that continues, and on one that does not. */
  lemma ReadStep(bytes: seq<Byte>, shift: nat, acc: nat, low: nat)
    requires bytes != [] && shift < 128 && low == bytes[0] % 128 && low * Pow2(shift) < U128
    ensures var next := acc + low * Pow2(shift);
            ReadFrom(bytes, shift, acc)
            == if bytes[0] < 128 then Some((next, bytes[1..])) else ReadFrom(bytes[1..], shift + 7, next)
  {
    SmallRemainder(low * Pow2(shift), U128);
  }

  lemma SmallRemainder(n: nat, d: nat)
    requires n < d
    ensures n % d == n
  {
  }

  lemma ReadLastByte(n: nat, suffix: seq<Byte>, shift: nat, acc: nat)
    requires n < 128 && shift < 128 && n * Pow2(shift) < U128
    ensures ReadFrom(Leb(n) + suffix, shift, acc) == Some((acc + n * Pow2(shift), suffix))
  {
    var s := Leb(n) + suffix;
    assert s[0] == n && s[1..] == suffix;
    ReadStep(s, shift, acc, n);
  }

  lemma ReadFirstByte(n: nat, suffix: seq<Byte>, shift: nat, acc: nat)
    requires n >= 128 && shift < 128 && n % 128 * Pow2(shift) < U128
    ensures ReadFrom(Leb(n) + suffix, shift, acc)
            == ReadFrom(Leb(n / 128) + suffix, shift + 7, acc + n % 128 * Pow2(shift))
  {
    var s := Leb(n) + suffix;
    assert s[0] == n % 128 + 128 && s[1..] == Leb(n / 128) + suffix;
    ReadStep(s, shift, acc, n % 128);
  }

  lemma {:induction false} ReadLeb(n: nat, suffix: seq<Byte>, shift: nat, acc: nat)
    requires n * Pow2(shift) < U128 && (n > 0 || shift == 0)
    ensures ReadFrom(Leb(n) + suffix, shift, acc) == Some((acc + n * Pow2(shift), suffix))
    decreases n
  {
    ShiftBound(n, shift);
    if n < 128 {
      ReadLastByte(n, suffix, shift, acc);
    } else {
      StepFacts(n, shift);
      ReadFirstByte(n, suffix, shift, acc);
      var next := acc + n % 128 * Pow2(shift);
      ReadLeb(n / 128, suffix, shift + 7, next);
      assert next + n / 128 * Pow2(shift + 7) == acc + n * Pow2(shift);
    }
  }

  lemma Distribute(hi: nat, lo: nat, p: nat)
    ensures (128 * hi + lo) * p == hi * (128 * p) + lo * p
    ensures lo * p <= (128 * hi + lo) * p && hi * (128 * p) <= (128 * hi + lo) * p
  {
    assert (128 * hi + lo) * p == 128 * hi * p + lo * p;
    assert 128 * hi * p == hi * (128 * p);
  }

  lemma ShiftBound(n: nat, shift: nat)
    requires n * Pow2(shift) < U128 && (n > 0 || shift == 0)
    ensures shift < 128
  {
    Pow2Is128();
    if shift >= 128 {
      Pow2Monotone(128, shift);
      MulMonotone(1, n, Pow2(shift));
    }
  }

  /** Reading inverts writing for every 128-bit value, whatever follows. */
  lemma ReadInvertsWrite(n: nat, suffix: seq<Byte>)
    requires n < U128
    ensures Read(Leb(n) + suffix) == Some((n, suffix))
  {
    ReadLeb(n, suffix, 0, 0);
  }

  lemma {:induction false} TruncatedFrom(n: nat, k: nat, shift: nat, acc: nat)
    requires k < |Leb(n)|
    ensures ReadFrom(Leb(n)[..k], shift, acc) == None
    decreases n
  {
    if k > 0 {
      var s := Leb(n)[..k];
      assert s[1..] == Leb(n / 128)[..k - 1];
      var next := acc + ((s[0] % 128) * Pow2(shift)) % U128;
      TruncatedFrom(n / 128, k - 1, shift + 7, next);
    }
  }

  /** A varint cut short is rejected; one cut behind its end still reads. */
  lemma ReadPrefix(n: nat, rest: seq<Byte>, k: nat)
    requires n < U128 && k <= |Leb(n)| + |rest|
    ensures Read((Leb(n) + rest)[..k]) == if k < |Leb(n)| then None else Some((n, rest[..k - |Leb(n)|]))
  {
    if k < |Leb(n)| {
      assert (Leb(n) + rest)[..k] == Leb(n)[..k];
      TruncatedFrom(n, k, 0, 0);
    } else {
      assert (Leb(n) + rest)[..k] == Leb(n) + rest[..k - |Leb(n)|];
      ReadInvertsWrite(n, rest[..k - |Leb(n)|]);
    }
  }
}
