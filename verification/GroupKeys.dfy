/**
 Group keys: one type-tagged fragment per group field, length-prefixed and
 concatenated, so that no field value can make two groups collide.
 */
module GroupKeys {
  import opened Bytes
  import opened Values
  import opened Filters

  const COLON: Byte := 58
  const ZERO: Byte := 48

  predicate IsDigit(b: Byte) {
    48 <= b <= 57
  }

  predicate AllDigits(s: seq<Byte>) {
    forall k | 0 <= k < |s| :: IsDigit(s[k])
  }

  /** Decimal rendering without leading zeros. */
  function Digits(n: nat): (s: seq<Byte>)
    ensures s != [] && AllDigits(s)
  {
    if n < 10 then [ZERO + n] else Digits(n / 10) + [ZERO + n % 10]
  }

  function DecimalOf(s: seq<Byte>): nat
    requires AllDigits(s)
  {
    if s == [] then 0 else DecimalOf(s[..|s| - 1]) * 10 + (s[|s| - 1] - ZERO)
  }

  lemma {:induction false} DigitsRoundTrip(n: nat)
    ensures DecimalOf(Digits(n)) == n
  {
    if n < 10 {
      assert [ZERO + n][..0] == [];
    } else {
      DigitsRoundTrip(n / 10);
      assert Digits(n)[..|Digits(n)| - 1] == Digits(n / 10);
    }
  }

  // ─── Keys ──────────────────────────────────────────────────────────────────

  type Fragment = seq<Byte>

  function EncodeOne(f: Fragment): seq<Byte> {
    Digits(|f|) + [COLON] + f
  }

  function Encode(fragments: seq<Fragment>): seq<Byte> {
    if fragments == [] then [] else EncodeOne(fragments[0]) + Encode(fragments[1..])
  }

  lemma {:induction false} EncodeAppend(fs: seq<Fragment>, f: Fragment)
    ensures Encode(fs + [f]) == Encode(fs) + EncodeOne(f)
  {
    if fs != [] {
      assert (fs + [f])[1..] == fs[1..] + [f];
      EncodeAppend(fs[1..], f);
      assert EncodeOne(fs[0]) + (Encode(fs[1..]) + EncodeOne(f)) == Encode(fs) + EncodeOne(f);
    } else {
      assert fs + [f] == [f] && [f][1..] == [];
    }
  }

  /** `encode_group_key`: append each length-prefixed fragment to the buffer. */
  method EncodeGroupKey(fragments: seq<Fragment>) returns (out: seq<Byte>)
    ensures out == Encode(fragments)
  {
    out := [];
    for i := 0 to |fragments|
      invariant out == Encode(fragments[..i])
    {
      assert fragments[..i + 1] == fragments[..i] + [fragments[i]];
      EncodeAppend(fragments[..i], fragments[i]);
      out := out + Digits(|fragments[i]|);
      out := out + [COLON];
      out := out + fragments[i];
    }
    assert fragments[..|fragments|] == fragments;
  }

  /** Length of the leading run of digits. */
  function DigitRun(s: seq<Byte>): (k: nat)
    ensures k <= |s| && AllDigits(s[..k]) && (k < |s| ==> !IsDigit(s[k]))
  {
    if s == [] || !IsDigit(s[0]) then 0
    else
      var k := 1 + DigitRun(s[1..]);
      assert s[..k] == [s[0]] + s[1..][..k - 1];
      k
  }

  const USIZE: nat := 0x1_0000_0000_0000_0000

  /** The fragment a key starts with, and where the next one begins; `None` if malformed. */
  function FirstFragment(s: seq<Byte>): (r: Option<(Fragment, nat)>)
    ensures r.Some? ==> 0 < r.value.1 <= |s|
  {
    var k := DigitRun(s);
    if k == 0 || k == |s| || s[k] != COLON then None
    else
      var len := DecimalOf(s[..k]);
      if len >= USIZE || k + 1 + len > |s| then None
      else Some((s[k + 1..k + 1 + len], k + 1 + len))
  }

  /** Decoding stops at the first malformed fragment and keeps what parsed. */
  function Decode(s: seq<Byte>): seq<Fragment>
    decreases |s|
  {
    match FirstFragment(s)
    case Some((f, n)) => [f] + Decode(s[n..])
    case None => []
  }

  /** One fragment at the cursor: its digits, the colon, then that many bytes. */
  method ReadFragment(key: seq<Byte>, start: nat) returns (r: Option<(Fragment, nat)>)
    requires start <= |key|
    ensures r == FirstFragment(key[start..])
  {
    ghost var rest := key[start..];
    var i := start;
    while i < |key| && IsDigit(key[i])
      invariant start <= i <= |key|
      invariant AllDigits(rest[..i - start])
    {
      assert rest[..i + 1 - start] == rest[..i - start] + [key[i]];
      i := i + 1;
    }
    var k := i - start;
    DigitRunIs(rest, k);
    if k == 0 || i >= |key| || key[i] != COLON {
      return None;
    }
    assert key[start..i] == rest[..k];
    var len := DecimalOf(key[start..i]);
    if len >= USIZE || i + 1 + len > |key| {
      return None;
    }
    assert key[i + 1..i + 1 + len] == rest[k + 1..k + 1 + len];
    return Some((key[i + 1..i + 1 + len], k + 1 + len));
  }

  /** `decode_group_key`: a cursor over the key's bytes. */
  method DecodeGroupKey(key: seq<Byte>) returns (out: seq<Fragment>)
    ensures out == Decode(key)
  {
    out := [];
    var i := 0;
    assert key[0..] == key;
    while i < |key|
      invariant i <= |key|
      invariant Decode(key) == out + Decode(key[i..])
      decreases |key| - i
    {
      var r := ReadFragment(key, i);
      if r == None {
        return;
      }
      var (fragment, length) := r.value;
      assert key[i..][length..] == key[i + length..];
      out := out + [fragment];
      i := i + length;
    }
  }

  lemma {:induction false} DigitRunIs(s: seq<Byte>, k: nat)
    requires k <= |s| && AllDigits(s[..k]) && (k < |s| ==> !IsDigit(s[k]))
    ensures DigitRun(s) == k
  {
    if k > 0 {
      assert IsDigit(s[..k][0]);
      assert s[1..][..k - 1] == s[..k][1..];
      DigitRunIs(s[1..], k - 1);
    }
  }

  predicate Addressable(fragments: seq<Fragment>) {
    forall k | 0 <= k < |fragments| :: |fragments[k]| < USIZE
  }

  lemma FirstOfEncoded(f: Fragment, tail: seq<Byte>)
    requires |f| < USIZE
    ensures FirstFragment(EncodeOne(f) + tail) == Some((f, |EncodeOne(f)|))
    ensures (EncodeOne(f) + tail)[|EncodeOne(f)|..] == tail
  {
    var d := Digits(|f|);
    var s := EncodeOne(f) + tail;
    assert s[..|d|] == d && s[|d|] == COLON;
    DigitRunIs(s, |d|);
    DigitsRoundTrip(|f|);
    assert s[|d| + 1..|d| + 1 + |f|] == f;
  }

  /** Decoding inverts encoding, for every list of fragments a process can hold. */
  lemma {:induction false} DecodeInvertsEncode(fragments: seq<Fragment>)
    requires Addressable(fragments)
    ensures Decode(Encode(fragments)) == fragments
  {
    if fragments != [] {
      FirstOfEncoded(fragments[0], Encode(fragments[1..]));
      DecodeInvertsEncode(fragments[1..]);
    }
  }

  /** Group keys are injective. */
  lemma EncodeInjective(a: seq<Fragment>, b: seq<Fragment>)
    requires Addressable(a) && Addressable(b) && Encode(a) == Encode(b)
    ensures a == b
  {
    DecodeInvertsEncode(a);
    DecodeInvertsEncode(b);
  }

  // ─── Fragments ─────────────────────────────────────────────────────────────

  /** How the runtime prints and parses floats, and prints the remaining types. */
  datatype Rendering = Rendering(float: F64 -> seq<Byte>, parseFloat: seq<Byte> -> Option<F64>,
                                 debug: Value -> seq<Byte>)

  const TAG_NULL: Byte := 110  // n
  const TAG_TEXT: Byte := 115  // s
  const TAG_INT: Byte := 105  // i
  const TAG_FLOAT: Byte := 102  // f
  const TAG_OTHER: Byte := 63  // ?
  const MINUS: Byte := 45
  const PLUS: Byte := 43

  function IntText(i: int): seq<Byte> {
    if i < 0 then [MINUS] + Digits(-i) else Digits(i)
  }

  /** `str::parse::<i64>`: optional sign, digits, in range. */
  function ParseI64(s: seq<Byte>): Option<I64> {
    var signed := s != [] && (s[0] == MINUS || s[0] == PLUS);
    var digits := if signed then s[1..] else s;
    if digits == [] || DigitRun(digits) < |digits| then None
    else
      assert digits[..|digits|] == digits;
      var n := DecimalOf(digits);
      var v: int := if signed && s[0] == MINUS then 0 - n else n;
      if -0x8000_0000_0000_0000 <= v < 0x8000_0000_0000_0000 then Some(v) else None
  }

  /** `value_to_group_key_fragment`: a type tag, then the value. */
  function FragmentOf(rd: Rendering, v: Option<Value>): Fragment {
    match v
    case Some(Text(s)) => [TAG_TEXT] + s
    case Some(Int(i)) => [TAG_INT] + IntText(i)
    case Some(Float(f)) => [TAG_FLOAT] + rd.float(f)
    case Some(Null) => [TAG_NULL]
    case None => [TAG_NULL]
    case Some(other) => [TAG_OTHER] + rd.debug(other)
  }

  /** `group_key_fragment_to_value`: the group value to display. */
  function ValueOf(rd: Rendering, frag: Fragment): Value {
    if frag == [] then Text(frag)
    else if frag[0] == TAG_NULL then Null
    else if frag[0] == TAG_TEXT then Text(frag[1..])
    else if frag[0] == TAG_INT then
      (match ParseI64(frag[1..]) case Some(i) => Int(i) case None => Null)
    else if frag[0] == TAG_FLOAT then
      (match rd.parseFloat(frag[1..]) case Some(f) => Float(f) case None => Null)
    else Text(frag)
  }

  lemma IntTextRoundTrip(i: I64)
    ensures ParseI64(IntText(i)) == Some(i)
  {
    var n := if i < 0 then -(i as int) else i as int;
    var d := Digits(n);
    DigitsRoundTrip(n);
    assert d[..|d|] == d;
    DigitRunIs(d, |d|);
    assert IsDigit(d[0]);
    if i < 0 {
      assert ([MINUS] + d)[1..] == d;
    }
  }

  /** A displayed group value has its original type and value. */
  lemma FragmentRoundTrip(rd: Rendering, v: Value)
    requires v.Text? || v.Int? || v.Null?
    ensures ValueOf(rd, FragmentOf(rd, Some(v))) == v
  {
    match v
    case Text(s) => assert ([TAG_TEXT] + s)[1..] == s;
    case Int(i) =>
      assert ([TAG_INT] + IntText(i))[1..] == IntText(i);
      IntTextRoundTrip(i);
    case Null =>
  }

  /** A text or integer fragment is produced by that value and by no other. */
  lemma FragmentPins(rd: Rendering, v: Option<Value>, pin: Value)
    requires pin.Text? || pin.Int?
    ensures FragmentOf(rd, v) == FragmentOf(rd, Some(pin)) <==> v == Some(pin)
  {
    FragmentRoundTrip(rd, pin);
    if FragmentOf(rd, v) == FragmentOf(rd, Some(pin)) {
      assert FragmentOf(rd, v)[0] == if pin.Text? then TAG_TEXT else TAG_INT;
      FragmentRoundTrip(rd, v.value);
    }
  }

  /** Null and a missing field share one group, apart from every text and integer. */
  lemma NullAndMissingShareAGroup(rd: Rendering)
    ensures FragmentOf(rd, None) == FragmentOf(rd, Some(Null))
    ensures forall pin: Value :: pin.Text? || pin.Int? ==> FragmentOf(rd, None) != FragmentOf(rd, Some(pin))
  {
    forall pin: Value | pin.Text? || pin.Int? ensures FragmentOf(rd, None) != FragmentOf(rd, Some(pin)) {
      FragmentPins(rd, None, pin);
    }
  }

  function Fragments(rd: Rendering, fields: Fields, groupFields: seq<string>): (fs: seq<Fragment>)
    ensures |fs| == |groupFields|
    ensures forall k | 0 <= k < |fs| :: fs[k] == FragmentOf(rd, Lookup(fields, groupFields[k]))
  {
    seq(|groupFields|, k requires 0 <= k < |groupFields| => FragmentOf(rd, Lookup(fields, groupFields[k])))
  }

  /** `extract_group_key`: the group a record belongs to. */
  function GroupKey(rd: Rendering, fields: Fields, groupFields: seq<string>): seq<Byte> {
    Encode(Fragments(rd, fields, groupFields))
  }
}
