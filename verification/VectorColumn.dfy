/**
 The vector column of a split (V5) record: a marker, the record's LID, the
 search field's id, the packed floats and their stored squared norm.
 */
module VectorColumn {
  import opened Bytes
  import opened Values
  import opened Leb128
  import opened FieldDictionary

  const MAGIC: seq<Byte> := [0x58, 0x59]
  const WITH_NORM: Byte := 0x04
  const WITHOUT_NORM: Byte := 0x03
  const USIZE: nat := 0x1_0000_0000_0000_0000

  // ─── Little-endian numbers and packed floats ───────────────────────────────

  function LittleEndian(n: nat, k: nat): (s: seq<Byte>)
    ensures |s| == k
  {
    if k == 0 then [] else [n % 256] + LittleEndian(n / 256, k - 1)
  }

  function FromLittleEndian(s: seq<Byte>): (n: nat)
    ensures n < Pow256(|s|)
  {
    if s == [] then 0 else s[0] + 256 * FromLittleEndian(s[1..])
  }

  lemma {:induction false} LittleEndianRoundTrip(n: nat, k: nat)
    requires n < Pow256(k)
    ensures FromLittleEndian(LittleEndian(n, k)) == n
  {
    if k > 0 {
      LittleEndianRoundTrip(n / 256, k - 1);
      assert LittleEndian(n, k)[1..] == LittleEndian(n / 256, k - 1);
    }
  }

  function Float32(s: seq<Byte>): F32
    requires |s| == 4
  {
    assert Pow256(4) == 0x1_0000_0000 by { assert Pow256(3) == 0x100_0000; }
    FromLittleEndian(s)
  }

  function Float64(s: seq<Byte>): F64
    requires |s| == 8
  {
    Pow256Values();
    FromLittleEndian(s)
  }

  lemma Float32RoundTrip(x: F32)
    ensures Float32(LittleEndian(x, 4)) == x
  {
    assert Pow256(3) == 0x100_0000 && Pow256(4) == 0x1_0000_0000;
    LittleEndianRoundTrip(x, 4);
  }

  lemma Float64RoundTrip(x: F64)
    ensures Float64(LittleEndian(x, 8)) == x
  {
    Pow256Values();
    LittleEndianRoundTrip(x, 8);
  }

  function Pack(v: seq<F32>): (s: seq<Byte>)
    ensures |s| == 4 * |v|
  {
    if v == [] then [] else Pack(v[..|v| - 1]) + LittleEndian(v[|v| - 1], 4)
  }

  /** `chunks_exact(4)` mapped through `from_le_bytes`; a ragged tail is ignored. */
  function Unpack(s: seq<Byte>): (v: seq<F32>)
    ensures |v| == |s| / 4
  {
    seq(|s| / 4, i requires 0 <= i < |s| / 4 => Float32(s[4 * i..4 * i + 4]))
  }

  lemma {:induction false} PackAt(v: seq<F32>, i: nat)
    requires i < |v|
    ensures Pack(v)[4 * i..4 * i + 4] == LittleEndian(v[i], 4)
  {
    var front := v[..|v| - 1];
    if i < |front| {
      PackAt(front, i);
      assert Pack(v)[4 * i..4 * i + 4] == Pack(front)[4 * i..4 * i + 4];
    }
  }

  /** Packing and unpacking floats is exact, bit for bit. */
  lemma UnpackInvertsPack(v: seq<F32>)
    ensures Unpack(Pack(v)) == v
  {
    forall i | 0 <= i < |v| ensures Unpack(Pack(v))[i] == v[i] {
      PackAt(v, i);
      Float32RoundTrip(v[i]);
    }
  }

  // ─── The column ────────────────────────────────────────────────────────────

  function Payload(v: seq<F32>, norm: F64): seq<Byte> {
    Pack(v) + LittleEndian(norm, 8)
  }

  function Sized(v: seq<F32>, norm: F64): seq<Byte> {
    Leb(|v|) + Payload(v, norm)
  }

  function Tagged(id: U16, v: seq<F32>, norm: F64): seq<Byte> {
    Leb(id) + Sized(v, norm)
  }

  function Body(lid: nat, id: U16, v: seq<F32>, norm: F64): seq<Byte> {
    Leb(lid) + ([1] + Tagged(id, v, norm))
  }

  function Column(lid: nat, id: U16, v: seq<F32>, norm: F64): seq<Byte> {
    MAGIC + [WITH_NORM] + Body(lid, id, v, norm)
  }

  method PushFloats(buf: seq<Byte>, v: seq<F32>) returns (out: seq<Byte>)
    ensures out == buf + Pack(v)
  {
    out := buf;
    for i := 0 to |v|
      invariant out == buf + Pack(v[..i])
    {
      assert v[..i + 1][..i] == v[..i];
      out := out + LittleEndian(v[i], 4);
    }
    assert v[..|v|] == v;
  }

  lemma Joined(buf: seq<Byte>, a: seq<Byte>, b: seq<Byte>)
    ensures buf + a + b == buf + (a + b)
  {
  }

  lemma ColumnParts(lid: nat, id: U16, v: seq<F32>, norm: F64)
    ensures Column(lid, id, v, norm)
            == MAGIC + [WITH_NORM] + Leb(lid) + [1] + Leb(id) + Leb(|v|) + Pack(v) + LittleEndian(norm, 8)
  {
    var buf := MAGIC + [WITH_NORM];
    Joined(buf, Leb(lid), [1] + Tagged(id, v, norm));
    buf := buf + Leb(lid);
    Joined(buf, [1], Tagged(id, v, norm));
    buf := buf + [1];
    Joined(buf, Leb(id), Sized(v, norm));
    buf := buf + Leb(id);
    Joined(buf, Leb(|v|), Payload(v, norm));
    Joined(buf + Leb(|v|), Pack(v), LittleEndian(norm, 8));
  }

  /** The hand-rolled writer: every part pushed in order into one buffer. */
  method BuildColumn(lid: nat, id: U16, v: seq<F32>, norm: F64) returns (col: seq<Byte>)
    ensures col == Column(lid, id, v, norm)
  {
    ColumnParts(lid, id, v, norm);
    col := MAGIC;
    col := col + [WITH_NORM];
    col := Write(col, lid);
    col := col + [1];
    col := Write(col, id);
    col := Write(col, |v|);
    col := PushFloats(col, v);
    col := col + LittleEndian(norm, 8);
  }

  datatype Prefix = Prefix(lid: nat, id: U16, floats: seq<Byte>, norm: Option<F64>)

  function ReadPayload(lid: nat, id: U16, n: nat, rest: seq<Byte>, hasNorm: bool): Option<Prefix> {
    if |rest| < n then None
    else if !hasNorm then Some(Prefix(lid, id, rest[..n], None))
    else if |rest| < n + 8 then None
    else Some(Prefix(lid, id, rest[..n], Some(Float64(rest[n..n + 8]))))
  }

  function ReadSized(lid: nat, id: U16, rest: seq<Byte>, hasNorm: bool): Option<Prefix> {
    match Read(rest)
    case Some((len, r)) => if len * 4 >= USIZE then None else ReadPayload(lid, id, len * 4, r, hasNorm)
    case None => None
  }

  function ReadTagged(lid: nat, rest: seq<Byte>, hasNorm: bool): Option<Prefix> {
    match Read(rest)
    case Some((id, r)) => if id >= LIMIT then None else ReadSized(lid, id, r, hasNorm)
    case None => None
  }

  function ReadBody(rest: seq<Byte>, hasNorm: bool): Option<Prefix> {
    match Read(rest)
    case Some((lid, r)) => if r == [] || r[0] != 1 then None else ReadTagged(lid, r[1..], hasNorm)
    case None => None
  }

  /** `read_vector_prefix_raw_norm`. */
  function ReadColumn(bytes: seq<Byte>): Option<Prefix> {
    if |bytes| < 3 || bytes[..2] != MAGIC then None
    else if bytes[2] == WITHOUT_NORM then ReadBody(bytes[3..], false)
    else if bytes[2] == WITH_NORM then ReadBody(bytes[3..], true)
    else None
  }

  // ─── A column reads back whole, and no part of it reads at all ─────────────

  /** What each stage makes of the first `k` bytes of what was written for it. */
  lemma PayloadPart(lid: nat, id: U16, v: seq<F32>, norm: F64, k: nat)
    requires k <= |Payload(v, norm)|
    ensures ReadPayload(lid, id, 4 * |v|, Payload(v, norm)[..k], true)
            == if k < |Payload(v, norm)| then None else Some(Prefix(lid, id, Pack(v), Some(norm)))
  {
    var p := Payload(v, norm);
    if k == |p| {
      assert p[..k] == p;
      assert p[..4 * |v|] == Pack(v) && p[4 * |v|..4 * |v| + 8] == LittleEndian(norm, 8);
      Float64RoundTrip(norm);
    }
  }

  lemma SizedStage(lid: nat, id: U16, n: nat, rest: seq<Byte>, k: nat)
    requires k <= |Leb(n) + rest| && 4 * n < USIZE
    ensures ReadSized(lid, id, (Leb(n) + rest)[..k], true)
            == if k < |Leb(n)| then None else ReadPayload(lid, id, 4 * n, rest[..k - |Leb(n)|], true)
  {
    ReadPrefix(n, rest, k);
  }

  lemma TaggedStage(lid: nat, id: U16, rest: seq<Byte>, k: nat)
    requires k <= |Leb(id) + rest|
    ensures ReadTagged(lid, (Leb(id) + rest)[..k], true)
            == if k < |Leb(id)| then None else ReadSized(lid, id, rest[..k - |Leb(id)|], true)
  {
    ReadPrefix(id, rest, k);
  }

  lemma BodyStage(lid: nat, rest: seq<Byte>, k: nat)
    requires k <= |Leb(lid) + ([1] + rest)| && lid < U128
    ensures ReadBody((Leb(lid) + ([1] + rest))[..k], true)
            == if k <= |Leb(lid)| then None else ReadTagged(lid, rest[..k - |Leb(lid)| - 1], true)
  {
    ReadPrefix(lid, [1] + rest, k);
    if k > |Leb(lid)| {
      var j := k - |Leb(lid)| - 1;
      assert ([1] + rest)[..j + 1][1..] == rest[..j];
    }
  }

  lemma SizedPart(lid: nat, id: U16, v: seq<F32>, norm: F64, k: nat)
    requires k <= |Sized(v, norm)| && 4 * |v| < USIZE
    ensures ReadSized(lid, id, Sized(v, norm)[..k], true)
            == if k < |Sized(v, norm)| then None else Some(Prefix(lid, id, Pack(v), Some(norm)))
  {
    SizedStage(lid, id, |v|, Payload(v, norm), k);
    if k >= |Leb(|v|)| {
      PayloadPart(lid, id, v, norm, k - |Leb(|v|)|);
    }
  }

  lemma TaggedPart(lid: nat, id: U16, v: seq<F32>, norm: F64, k: nat)
    requires k <= |Tagged(id, v, norm)| && 4 * |v| < USIZE
    ensures ReadTagged(lid, Tagged(id, v, norm)[..k], true)
            == if k < |Tagged(id, v, norm)| then None else Some(Prefix(lid, id, Pack(v), Some(norm)))
  {
    TaggedStage(lid, id, Sized(v, norm), k);
    if k >= |Leb(id)| {
      SizedPart(lid, id, v, norm, k - |Leb(id)|);
    }
  }

  lemma BodyPart(lid: nat, id: U16, v: seq<F32>, norm: F64, k: nat)
    requires k <= |Body(lid, id, v, norm)| && lid < U128 && 4 * |v| < USIZE
    ensures ReadBody(Body(lid, id, v, norm)[..k], true)
            == if k < |Body(lid, id, v, norm)| then None else Some(Prefix(lid, id, Pack(v), Some(norm)))
  {
    BodyStage(lid, Tagged(id, v, norm), k);
    if k > |Leb(lid)| {
      TaggedPart(lid, id, v, norm, k - |Leb(lid)| - 1);
    }
  }

  /** Reading a column gives back what was written, and every strict prefix is rejected. */
  lemma ColumnReadsWholeOrNot(lid: nat, id: U16, v: seq<F32>, norm: F64, k: nat)
    requires k <= |Column(lid, id, v, norm)| && lid < U128 && 4 * |v| < USIZE
    ensures ReadColumn(Column(lid, id, v, norm)[..k])
            == if k < |Column(lid, id, v, norm)| then None else Some(Prefix(lid, id, Pack(v), Some(norm)))
  {
    var c := Column(lid, id, v, norm);
    if k >= 3 {
      assert c[..k][..2] == MAGIC && c[..k][2] == WITH_NORM;
      assert c[..k][3..] == Body(lid, id, v, norm)[..k - 3];
      BodyPart(lid, id, v, norm, k - 3);
    }
  }

  lemma ReadOfAll(bytes: seq<Byte>)
    ensures ReadColumn(bytes[..|bytes|]) == ReadColumn(bytes)
  {
    assert bytes[..|bytes|] == bytes;
  }

  lemma WholeColumnReads(lid: nat, id: U16, v: seq<F32>, norm: F64)
    requires lid < U128 && 4 * |v| < USIZE
    ensures ReadColumn(Column(lid, id, v, norm)) == Some(Prefix(lid, id, Pack(v), Some(norm)))
  {
    ColumnReadsWholeOrNot(lid, id, v, norm, |Column(lid, id, v, norm)|);
    ReadOfAll(Column(lid, id, v, norm));
  }
}
