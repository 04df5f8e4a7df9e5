/** Single values on the wire: decoding undoes encoding, and skipping passes over exactly one value. */
module ProtoScalars {
  import opened Wrappers
  import opened Coding
  import opened Proto
  import opened ProtoWire

  // ----- integers -----

  lemma {:induction false} ReadVarint32Back(v: nat, rest: Bytes)
    requires v < TWO32
    ensures ReadVarint32(Varint(v) + rest) == Parsed(v, rest)
  {
    FiveGroups();
    GroupsVarint(v, 5, rest);
  }

  /** The groups of a number that has more of them than `n`. */
  lemma {:induction false} VarintGroups(v: nat, n: nat, p: nat)
    requires p == Pow(128, n) > 0 && v >= p
    ensures |Varint(v)| > n && Varint(v)[n..] == Varint(v / p)
    ensures SumUp(Varint(v)[..n]) == v % p && forall k :: 0 <= k < n ==> Varint(v)[k] >= 128
    decreases n
  {
    if n > 0 {
      var q := Pow(128, n - 1);
      Quotient(v, q);
      VarintGroups(v / 128, n - 1, q);
      MoreGroup((v % 128 + 128) as byte, Varint(v / 128), n);
    } else {
      assert Varint(v)[..0] == [];
    }
  }

  lemma {:induction false} MoreGroup(b: byte, t: Bytes, n: nat)
    requires 0 < n <= |t| + 1 && b >= 128 && forall k :: 0 <= k < n - 1 ==> t[k] >= 128
    ensures ([b] + t)[n..] == t[n - 1..]
    ensures SumUp(([b] + t)[..n]) == b as nat % 128 + 128 * SumUp(t[..n - 1])
    ensures forall k :: 0 <= k < n ==> ([b] + t)[k] >= 128
  {
    assert ([b] + t)[..n][1..] == t[..n - 1];
  }

  lemma {:induction false} Quotient(v: nat, p: nat)
    requires p > 0 && v >= 128 * p
    ensures v >= 128 && v / 128 >= p && v / 128 / p == v / (128 * p)
    ensures v % (128 * p) == v % 128 + 128 * (v / 128 % p)
  {
    var a, q, r := v / 128, v / 128 / p, v / 128 % p;
    assert a == q * p + r && v == 128 * a + v % 128;
    assert v == q * (128 * p) + (128 * r + v % 128);
    Divides(v, 128 * p, q, 128 * r + v % 128);
  }

  lemma {:induction false} Divides(v: nat, d: nat, q: nat, r: nat)
    requires v == q * d + r && r < d
    ensures v / d == q && v % d == r
  {
    var k := v / d - q;
    assert v / d * d == q * d + k * d;
    assert k * d + v % d == r;
    assert k == 0 by {
      Between(k, d, r);
    }
  }

  lemma {:induction false} Between(k: int, d: nat, r: nat)
    requires r < d && k * d <= r < k * d + d
    ensures k == 0
  {}

  /** A negative number, sign-extended to 64 bits on the wire, is read as its 32-bit two's complement. */
  lemma {:induction false} NegativeReadsBack(n: nat, rest: Bytes)
    requires 1 <= n <= 0x8000_0000
    ensures ReadVarint32(Varint(TWO64 - n) + rest) == Parsed(TWO32 - n, rest)
  {
    var v := TWO64 - n;
    var s := Varint(v) + rest;
    FiveGroups();
    VarintGroups(v, 5, 0x8_0000_0000);
    SignGroups();
    assert v / 0x8_0000_0000 == 0x1FFF_FFFF && v % 0x8_0000_0000 % TWO32 == TWO32 - n;
    assert s[..5] == Varint(v)[..5];
    assert s[5..] == [0xFF, 0xFF, 0xFF, 0xFF, 0x01] + rest;
    AllContinue(s, 5);
    SignReads(rest, TWO32 - n);
  }

  lemma {:induction false} SignGroups()
    ensures Varint(0x1FFF_FFFF) == [0xFF, 0xFF, 0xFF, 0xFF, 0x01]
  {
    assert Varint(0x1) == [0x01] && Varint(0xFF) == [0xFF, 0x01] && Varint(0x7FFF) == [0xFF, 0xFF, 0x01];
    assert Varint(0x3F_FFFF) == [0xFF, 0xFF, 0xFF, 0x01];
  }

  lemma {:induction false} AllContinue(s: Bytes, max: nat)
    requires max <= |s| && forall k :: 0 <= k < max ==> s[k] >= 128
    ensures Groups(s, max) == Bad
  {
    if max > 0 {
      AllContinue(s[1..], max - 1);
    }
  }

  lemma {:induction false} SignReads(rest: Bytes, v: nat)
    requires 0x8000_0000 <= v < TWO32
    ensures ReadPadding([0xFF, 0xFF, 0xFF, 0xFF, 0x01] + rest, v, 35) == Parsed(v, rest)
  {
    var s: Bytes := [0xFF, 0xFF, 0xFF, 0xFF, 0x01];
    assert (s + rest)[1..] == [0xFF, 0xFF, 0xFF, 0x01] + rest;
    assert ([0xFF, 0xFF, 0xFF, 0x01] + rest)[1..] == [0xFF, 0xFF, 0x01] + rest;
    assert ([0xFF, 0xFF, 0x01] + rest)[1..] == [0xFF, 0x01] + rest;
    assert ([0xFF, 0x01] + rest)[1..] == [0x01] + rest;
    assert ([0x01] + rest)[1..] == rest;
    assert ReadPadding([0x01] + rest, v, 63) == Parsed(v, rest);
    assert ReadPadding([0xFF, 0x01] + rest, v, 56) == Parsed(v, rest);
    assert ReadPadding([0xFF, 0xFF, 0x01] + rest, v, 49) == Parsed(v, rest);
    assert ReadPadding([0xFF, 0xFF, 0xFF, 0x01] + rest, v, 42) == Parsed(v, rest);
  }

  lemma {:induction false} ReadPrefixedBack(s: Bytes, rest: Bytes)
    requires |s| < TWO32
    ensures ReadPrefixed(Prefixed(s) + rest) == Parsed(s, rest)
  {
    ReadVarint32Back(|s|, s + rest);
    assert Prefixed(s) + rest == Varint(|s|) + (s + rest);
    assert (s + rest)[..|s|] == s && (s + rest)[|s|..] == rest;
  }

  /** Reading the low half as a signed number undoes two's complement whenever the number fits. */
  lemma {:induction false} CastTwos(n: int, span: nat)
    requires span == TWO32 || span == TWO64
    requires -(span / 2) <= n < span / 2
    ensures Cast(Twos(n), span) == n
  {
    if n < 0 {
      assert (n + TWO64) % span == n + span;
    } else {
      assert n % span == n;
    }
  }

  lemma {:induction false} IntBack(size: nat, n: int, rest: Bytes)
    requires WidthOk(size) && Signed(size, n)
    ensures DecodeInt(size, Varint(Twos(n)) + rest) == Parsed(Number(n), rest)
  {
    Varint64RoundTrip(Twos(n), rest);
    CastTwos(n, if size == 8 then TWO64 else TWO32);
  }

  lemma {:induction false} UIntBack(size: nat, n: nat, rest: Bytes)
    requires WidthOk(size) && n < Span(size)
    ensures DecodeUInt(size, Varint(n) + rest) == Parsed(Number(n), rest)
  {
    Varint64RoundTrip(n, rest);
  }

  lemma {:induction false} UnzigZigZag(n: int)
    ensures Unzig(ZigZag(n)) == n
  {}

  lemma {:induction false} SIntBack(size: nat, n: int, rest: Bytes)
    requires WidthOk(size) && Signed(size, n)
    ensures DecodeSInt(size, Varint(ZigZag(n)) + rest) == Parsed(Number(n), rest)
  {
    Varint64RoundTrip(ZigZag(n), rest);
    UnzigZigZag(n);
  }

  lemma {:induction false} FixedBack(width: nat, n: nat, rest: Bytes)
    requires n < Pow(256, width)
    ensures DecodeFixed(width, Fixed(width, n) + rest) == Parsed(Number(n), rest)
  {
    UnfixedFixed(width, n);
    assert (Fixed(width, n) + rest)[..width] == Fixed(width, n) && (Fixed(width, n) + rest)[width..] == rest;
  }

  // ----- every kind but submessages -----

  /** The one value that is written and cannot be read: a text that leaves no room for its terminator. */
  predicate Unterminated(k: Kind, v: Value) {
    k.Text? && v.Raw? && |v.bytes| >= k.max
  }

  lemma {:induction false} ScalarBack(k: Kind, v: Value, b: Bytes, rest: Bytes)
    requires KindOk(k) && Holds(k, v) && EncodeScalar(k, v) == Some(b) && |b| < TWO32
    ensures DecodeScalar(k, b + rest) == if Unterminated(k, v) then Bad else Parsed(v, rest)
  {
    match k
    case Bool => ReadVarint32Back(if v.b then 1 else 0, rest);
    case Int(size) => IntBack(size, v.n, rest);
    case UInt(size) => UIntBack(size, v.n, rest);
    case SInt(size) => SIntBack(size, v.n, rest);
    case Fixed32 => Powers(); FixedBack(4, v.n, rest);
    case Fixed64 => Powers(); FixedBack(8, v.n, rest);
    case ByteArray(max) => ReadPrefixedBack(v.bytes, rest);
    case Text(max) => ReadPrefixedBack(v.bytes, rest);
    case FixedLength(size) => ReadPrefixedBack(v.bytes, rest);
    case Submessage(_) =>
  }

  lemma {:induction false} ScalarNonEmpty(k: Kind, v: Value)
    ensures EncodeScalar(k, v).Some? ==> EncodeScalar(k, v).value != []
  {}

  // ----- packed arrays -----

  lemma {:induction false} PackedBack(k: Kind, max: nat, vs: seq<Value>, b: Bytes, before: seq<Value>)
    requires Packable(k) && KindOk(k) && forall j :: 0 <= j < |vs| ==> Holds(k, vs[j])
    requires EncodePacked(k, vs) == Some(b) && |b| < TWO32 && |before| + |vs| <= max
    ensures DecodePacked(k, max, b, before) == Some(before + vs)
  {
    if vs == [] {
      assert before + vs == before;
    } else {
      var head, tail := EncodeScalar(k, vs[0]).value, EncodePacked(k, vs[1..]).value;
      ScalarNonEmpty(k, vs[0]);
      ScalarBack(k, vs[0], head, tail);
      PackedBack(k, max, vs[1..], tail, before + [vs[0]]);
      assert before + [vs[0]] + vs[1..] == before + vs;
    }
  }

  // ----- tags -----

  lemma {:induction false} ReadTagBack(tag: nat, wt: nat, rest: Bytes)
    requires 1 <= tag <= MAX_TAG && wt < 8
    ensures ReadTag(Tag(wt, tag) + rest) == TagRead(tag, wt, rest)
  {
    ReadVarint32Back(tag * 8 + wt, rest);
  }

  // ----- skipping -----

  lemma {:induction false} SkipVarintBack(v: nat, rest: Bytes)
    ensures SkipVarint(Varint(v) + rest) == Some(rest)
  {
    var s := Varint(v) + rest;
    if v < 128 {
      assert s[1..] == rest;
    } else {
      SkipVarintBack(v / 128, rest);
      assert s[1..] == Varint(v / 128) + rest;
    }
  }

  /** A decoder that does not know a field steps over exactly the bytes written for its value. */
  lemma {:induction false} SkipScalar(k: Kind, v: Value, b: Bytes, rest: Bytes)
    requires EncodeScalar(k, v) == Some(b) && |b| < TWO32
    ensures SkipField(WireType(k), b + rest) == Some(rest)
  {
    match k
    case Bool => SkipVarintBack(if v.b then 1 else 0, rest);
    case Int(size) => SkipVarintBack(Twos(v.n), rest);
    case UInt(size) => SkipVarintBack(v.n, rest);
    case SInt(size) => SkipVarintBack(ZigZag(v.n), rest);
    case Fixed32 => assert (b + rest)[4..] == rest;
    case Fixed64 => assert (b + rest)[8..] == rest;
    case ByteArray(_) => ReadPrefixedBack(v.bytes, rest);
    case Text(_) => ReadPrefixedBack(v.bytes, rest);
    case FixedLength(_) => ReadPrefixedBack(v.bytes, rest);
    case Submessage(_) =>
  }
}
