/**
 Sort keys of covering ghosts: `[ghost id:2][type tag][value][tiebreak]`, with
 everything after the ghost id complemented for descending ghosts.
 */
module SortKeys {
  import opened Bytes
  import opened Values
  import opened FieldDictionary

  const U64: nat := 0x1_0000_0000_0000_0000

  // ─── The order the keys stand for ──────────────────────────────────────────

  /** IEEE 754-2019 section 5.10 totalOrder as an integer rank: negatives by falling magnitude, then positives. */
  function TotalRank(f: F64): int {
    if f < SIGN64 then f else SIGN64 - 1 - f
  }

  function Tag(v: Option<Value>): Byte {
    match v
    case None => 0x00
    case Some(Null) => 0x00
    case Some(Int(_)) => 0x01
    case Some(Float(_)) => 0x02
    case Some(Text(_)) => 0x03
    case Some(_) => 0xFF
  }

  /** Value order: by type, then within the type; everything else ties. */
  function SortCmp(a: Option<Value>, b: Option<Value>): Ordering {
    match (a, b)
    case (Some(Int(i)), Some(Int(j))) => IntCmp(i, j)
    case (Some(Float(f)), Some(Float(g))) => IntCmp(TotalRank(f), TotalRank(g))
    case (Some(Text(s)), Some(Text(t))) => Cmp(s, t)
    case _ => IntCmp(Tag(a), Tag(b))
  }

  /** On numbers, total order is the order of the range filters, except that it splits the zeros. */
  lemma TotalRankAgrees(f: F64, g: F64)
    requires !IsNan64(f) && !IsNan64(g) && Magnitude64(f) != Magnitude64(g)
    ensures Some(IntCmp(TotalRank(f), TotalRank(g))) == F64Cmp(f, g)
  {
  }

  // ─── Encoding ──────────────────────────────────────────────────────────────

  /** `^ (1 << 63)` on a 64-bit word. */
  function FlipTop(u: F64): F64 {
    if u >= SIGN64 then u - SIGN64 else u + SIGN64
  }

  /** `i as u64`. */
  function TwosComplement(i: I64): F64 {
    if i >= 0 then i else i + 0x1_0000_0000_0000_0000
  }

  function FloatWord(bits: F64): F64 {
    if bits >= SIGN64 then 0xFFFF_FFFF_FFFF_FFFF - bits else FlipTop(bits)
  }

  function Escaped(s: seq<Byte>): seq<Byte> {
    if s == [] then [] else Escaped(s[..|s| - 1]) + EscapedByte(s[|s| - 1])
  }

  function Terminated(s: seq<Byte>): seq<Byte> {
    Escaped(s) + [0x00, 0x00]
  }

  function EscapedByte(b: Byte): seq<Byte> {
    if b == 0 then [0x00, 0xFF] else [b]
  }

  function Encoded(v: Option<Value>): seq<Byte> {
    match v
    case None => [0x00]
    case Some(Null) => [0x00]
    case Some(Int(i)) => [0x01] + BigEndian(FlipTop(TwosComplement(i)), 8)
    case Some(Float(f)) => [0x02] + BigEndian(FloatWord(f), 8)
    case Some(Text(s)) => [0x03] + Terminated(s)
    case Some(_) => [0xFF]
  }

  function Complement(s: seq<Byte>): (c: seq<Byte>)
    ensures |c| == |s| && forall i | 0 <= i < |s| :: c[i] == 255 - s[i]
  {
    seq(|s|, i requires 0 <= i < |s| => (255 - s[i]) as Byte)
  }

  function SortKey(ghostId: U16, v: Option<Value>, inverted: bool, tiebreak: seq<Byte>): seq<Byte> {
    var body := Encoded(v) + tiebreak;
    BigEndian(ghostId, 2) + (if inverted then Complement(body) else body)
  }

  method EncodeValueOrdered(buf: seq<Byte>, v: Option<Value>) returns (out: seq<Byte>)
    ensures out == buf + Encoded(v)
  {
    match v
    case None => out := buf + [0x00];
    case Some(Null) => out := buf + [0x00];
    case Some(Int(i)) =>
      out := buf + [0x01];
      out := out + BigEndian(FlipTop(TwosComplement(i)), 8);
    case Some(Float(f)) =>
      out := buf + [0x02];
      out := out + BigEndian(FloatWord(f), 8);
    case Some(Text(s)) =>
      out := buf + [0x03];
      out := PushEscaped(out, s);
      out := out + [0x00];
      out := out + [0x00];
      assert out == buf + ([0x03] + Terminated(s));
    case Some(_) => out := buf + [0xFF];
  }

  method PushEscaped(buf: seq<Byte>, s: seq<Byte>) returns (out: seq<Byte>)
    ensures out == buf + Escaped(s)
  {
    out := buf;
    for i := 0 to |s|
      invariant out == buf + Escaped(s[..i])
    {
      assert s[..i + 1][..i] == s[..i];
      if s[i] == 0x00 {
        out := out + [0x00];
        out := out + [0xFF];
      } else {
        out := out + [s[i]];
      }
    }
    assert s[..|s|] == s;
  }

  method EncodeSortKey(ghostId: U16, v: Option<Value>, inverted: bool, tiebreak: seq<Byte>)
    returns (key: seq<Byte>)
    ensures key == SortKey(ghostId, v, inverted, tiebreak)
  {
    key := BigEndian(ghostId, 2);
    key := EncodeValueOrdered(key, v);
    key := key + tiebreak;
    ghost var plain := key;
    ghost var body := Encoded(v) + tiebreak;
    assert plain[..2] == BigEndian(ghostId, 2) && plain[2..] == body;
    if inverted {
      for i := 2 to |key|
        invariant |key| == |plain| && key[..2] == plain[..2]
        invariant forall k | 2 <= k < i :: key[k] == 255 - plain[k]
        invariant forall k | i <= k < |key| :: key[k] == plain[k]
      {
        key := key[i := 255 - key[i]];
      }
      assert key[2..] == Complement(body);
    }
    assert key == key[..2] + key[2..];
  }

  // ─── Strings that part before either ends ──────────────────────────────────

  /** The two strings differ at a position both have. */
  predicate Parts(a: seq<Byte>, b: seq<Byte>) {
    a != [] && b != [] && (a[0] != b[0] || Parts(a[1..], b[1..]))
  }

  /** Then neither is a prefix of the other, and nothing appended to them matters. */
  lemma {:induction false} PartsDecides(a: seq<Byte>, b: seq<Byte>, x: seq<Byte>, y: seq<Byte>)
    requires Parts(a, b)
    ensures Cmp(a + x, b + y) == Cmp(a, b) != Equal && Parts(a + x, b + y)
    ensures !(a <= b) && !(b <= a)
  {
    assert (a + x)[0] == a[0] && (b + y)[0] == b[0];
    if a[0] == b[0] {
      assert (a + x)[1..] == a[1..] + x && (b + y)[1..] == b[1..] + y;
      PartsDecides(a[1..], b[1..], x, y);
      assert a == [a[0]] + a[1..] && b == [b[0]] + b[1..];
    }
  }

  lemma {:induction false} PartsReverses(a: seq<Byte>, b: seq<Byte>)
    requires Parts(a, b)
    ensures Cmp(Complement(a), Complement(b)) == Cmp(a, b).Reverse() && Parts(Complement(a), Complement(b))
  {
    if a[0] == b[0] {
      PartsReverses(a[1..], b[1..]);
      assert Complement(a)[1..] == Complement(a[1..]) && Complement(b)[1..] == Complement(b[1..]);
    }
  }

  lemma {:induction false} SameLengthParts(a: seq<Byte>, b: seq<Byte>)
    requires |a| == |b| && a != b
    ensures Parts(a, b)
  {
    if a[0] == b[0] {
      assert a == [a[0]] + a[1..] && b == [b[0]] + b[1..];
      SameLengthParts(a[1..], b[1..]);
    }
  }

  lemma PartsBehind(p: seq<Byte>, a: seq<Byte>, b: seq<Byte>)
    requires |p| == 1 && Parts(a, b)
    ensures Parts(p + a, p + b) && Cmp(p + a, p + b) == Cmp(a, b)
  {
    assert (p + a)[1..] == a && (p + b)[1..] == b;
    CmpSamePrefix(p, a, b);
  }

  // ─── The order embedding ───────────────────────────────────────────────────

  lemma WordsOrder(n: F64, m: F64)
    ensures Cmp(BigEndian(n, 8), BigEndian(m, 8)) == IntCmp(n, m)
    ensures n != m ==> Parts(BigEndian(n, 8), BigEndian(m, 8))
  {
    Pow256Values();
    BigEndianOrder(n, m, 8);
    if n != m {
      CmpEqual(BigEndian(n, 8), BigEndian(m, 8));
      SameLengthParts(BigEndian(n, 8), BigEndian(m, 8));
    }
  }

  lemma {:induction false} EscapedHead(s: seq<Byte>)
    requires s != []
    ensures Escaped(s) == EscapedByte(s[0]) + Escaped(s[1..])
  {
    if |s| > 1 {
      var front := s[..|s| - 1];
      EscapedHead(front);
      assert s[1..][..|s| - 2] == front[1..];
    }
  }

  lemma TerminatedHead(s: seq<Byte>)
    requires s != []
    ensures Terminated(s) == EscapedByte(s[0]) + Terminated(s[1..])
  {
    EscapedHead(s);
  }

  /** Terminated text parts before it ends, in the order of the bytes. */
  lemma {:induction false} TextOrder(s: seq<Byte>, t: seq<Byte>)
    requires s != t
    ensures Parts(Terminated(s), Terminated(t)) && Cmp(Terminated(s), Terminated(t)) == Cmp(s, t)
    decreases |s|
  {
    if s != [] && t != [] && s[0] == t[0] {
      assert s[1..] != t[1..] by {
        assert s == [s[0]] + s[1..] && t == [t[0]] + t[1..];
      }
      TextOrder(s[1..], t[1..]);
      SameHead(EscapedByte(s[0]), Terminated(s[1..]), Terminated(t[1..]));
      TerminatedHead(s);
      TerminatedHead(t);
    } else {
      TextOrderHeads(s, t);
    }
  }

  lemma SameHead(p: seq<Byte>, a: seq<Byte>, b: seq<Byte>)
    requires 1 <= |p| <= 2 && Parts(a, b)
    ensures Parts(p + a, p + b) && Cmp(p + a, p + b) == Cmp(a, b)
  {
    if |p| == 1 {
      PartsBehind(p, a, b);
    } else {
      PartsBehind(p[1..], a, b);
      PartsBehind(p[..1], p[1..] + a, p[1..] + b);
      assert p + a == p[..1] + (p[1..] + a) && p + b == p[..1] + (p[1..] + b);
    }
  }

  lemma TextOrderHeads(s: seq<Byte>, t: seq<Byte>)
    requires s != t && (s == [] || t == [] || s[0] != t[0])
    ensures Parts(Terminated(s), Terminated(t)) && Cmp(Terminated(s), Terminated(t)) == Cmp(s, t)
  {
    var a, b := Terminated(s), Terminated(t);
    if s != [] { TerminatedHead(s); }
    if t != [] { TerminatedHead(t); }
    assert a[0] == if s == [] then 0 else s[0];
    assert b[0] == if t == [] then 0 else t[0];
    if a[0] == b[0] {
      assert a[1] != b[1];
      assert Parts(a[1..], b[1..]);
    }
  }

  /** No encoded value is a prefix of another, and byte order is value order. */
  lemma ValueOrder(a: Option<Value>, b: Option<Value>)
    requires SortCmp(a, b) != Equal
    ensures Parts(Encoded(a), Encoded(b)) && Cmp(Encoded(a), Encoded(b)) == SortCmp(a, b)
  {
    if Tag(a) == Tag(b) {
      match (a, b)
      case (Some(Int(i)), Some(Int(j))) =>
        WordsOrder(FlipTop(TwosComplement(i)), FlipTop(TwosComplement(j)));
        PartsBehind([0x01], Encoded(a)[1..], Encoded(b)[1..]);
      case (Some(Float(f)), Some(Float(g))) =>
        WordsOrder(FloatWord(f), FloatWord(g));
        PartsBehind([0x02], Encoded(a)[1..], Encoded(b)[1..]);
      case (Some(Text(s)), Some(Text(t))) =>
        CmpEqual(s, t);
        TextOrder(s, t);
        PartsBehind([0x03], Encoded(a)[1..], Encoded(b)[1..]);
      case _ =>
    } else {
      assert Encoded(a)[0] == Tag(a) && Encoded(b)[0] == Tag(b);
    }
  }

  /** Values that tie share an encoding. */
  lemma TiesShareEncoding(a: Option<Value>, b: Option<Value>)
    requires SortCmp(a, b) == Equal
    ensures Encoded(a) == Encoded(b)
  {
    if a.Some? && a.value.Text? && b.Some? && b.value.Text? {
      CmpEqual(a.value.s, b.value.s);
    }
  }

  function Directed(o: Ordering, inverted: bool): Ordering {
    if inverted then o.Reverse() else o
  }

  /**
   Sort keys are an order embedding: between different values the tiebreaks never
   matter, and an inverted ghost has exactly the reverse order.
   */
  lemma SortKeyOrder(ghostId: U16, a: Option<Value>, b: Option<Value>, inverted: bool, s: seq<Byte>, t: seq<Byte>)
    requires SortCmp(a, b) != Equal
    ensures Cmp(SortKey(ghostId, a, inverted, s), SortKey(ghostId, b, inverted, t)) == Directed(SortCmp(a, b), inverted)
  {
    var x, y := Encoded(a) + s, Encoded(b) + t;
    ValueOrder(a, b);
    PartsDecides(Encoded(a), Encoded(b), s, t);
    PartsReverses(x, y);
    CmpSamePrefix(BigEndian(ghostId, 2), x, y);
    CmpSamePrefix(BigEndian(ghostId, 2), Complement(x), Complement(y));
  }

  lemma {:induction false} ComplementReverses(s: seq<Byte>, t: seq<Byte>)
    requires |s| == |t|
    ensures Cmp(Complement(s), Complement(t)) == Cmp(s, t).Reverse()
  {
    CmpEqual(s, t);
    CmpEqual(Complement(s), Complement(t));
    if s != t {
      SameLengthParts(s, t);
      PartsReverses(s, t);
    }
  }

  /** Within one value, equal-length tiebreaks decide. */
  lemma TiebreakOrder(ghostId: U16, a: Option<Value>, b: Option<Value>, inverted: bool, s: seq<Byte>, t: seq<Byte>)
    requires SortCmp(a, b) == Equal && |s| == |t|
    ensures Cmp(SortKey(ghostId, a, inverted, s), SortKey(ghostId, b, inverted, t)) == Directed(Cmp(s, t), inverted)
  {
    TiesShareEncoding(a, b);
    var e, g := Encoded(a), BigEndian(ghostId, 2);
    CmpSamePrefix(e, s, t);
    ComplementReverses(e + s, e + t);
    CmpSamePrefix(g, e + s, e + t);
    CmpSamePrefix(g, Complement(e + s), Complement(e + t));
  }

  /** Keys are equal exactly when ghost, value and tiebreak are. */
  lemma SortKeyEqualIff(g: U16, h: U16, a: Option<Value>, b: Option<Value>, inverted: bool, s: seq<Byte>, t: seq<Byte>)
    requires |s| == |t|
    ensures SortKey(g, a, inverted, s) == SortKey(h, b, inverted, t)
            <==> g == h && SortCmp(a, b) == Equal && s == t
  {
    Pow256Values();
    BigEndianRoundTrip(g, 2);
    BigEndianRoundTrip(h, 2);
    var x, y := SortKey(g, a, inverted, s), SortKey(h, b, inverted, t);
    assert x[..2] == BigEndian(g, 2) && y[..2] == BigEndian(h, 2);
    if g == h {
      CmpEqual(x, y);
      CmpEqual(s, t);
      if SortCmp(a, b) == Equal {
        TiebreakOrder(g, a, b, inverted, s, t);
      } else {
        SortKeyOrder(g, a, b, inverted, s, t);
      }
    }
  }

  /** Different values of the four ordered types never tie. */
  lemma OrderedTypesNeverTie(a: Value, b: Value)
    requires a != b && Tag(Some(a)) != 0xFF
    ensures SortCmp(Some(a), Some(b)) != Equal
  {
    if a.Text? && b.Text? {
      CmpEqual(a.s, b.s);
    }
  }
}
