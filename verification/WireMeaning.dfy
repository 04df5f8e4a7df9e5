/**
  What the bytes of a number say, digit by digit (util/coding.cc, pb_encode.c), and what each kind of scalar
  puts on the wire: statements about the bytes alone, without the decoder that reads them.
 */
module WireMeaning {
  import opened Wrappers
  import opened Coding
  import opened Proto
  import opened ProtoWire
  import ProtoScalars

  // ----- digits -----

  lemma {:induction false} PowPositive(base: nat, n: nat)
    requires base > 0
    ensures Pow(base, n) > 0
  {
    if n > 0 {
      PowPositive(base, n - 1);
    }
  }

  lemma {:induction false} DivideTwice(v: nat, a: nat, b: nat)
    requires a > 0 && b > 0
    ensures a * b > 0 && v / a / b == v / (a * b)
  {
    var q, r, s := v / a / b, v / a % b, v % a;
    assert v == (q * b + r) * a + s;
    assert v == q * (a * b) + (r * a + s) by {
      assert (q * b + r) * a == q * b * a + r * a;
      assert q * b * a == q * (a * b);
    }
    assert r * a + s < a * b by {
      assert (r + 1) * a <= b * a;
      assert (r + 1) * a == r * a + a;
    }
    ProtoScalars.Divides(v, a * b, q, r * a + s);
  }

  /** The base-128 form: digit by digit from the lowest, every byte but the last one with its high bit set. */
  lemma {:induction false} VarintDigit(v: nat, i: nat)
    requires i < |Varint(v)|
    ensures Pow(128, i) > 0
    ensures Varint(v)[i] as nat == v / Pow(128, i) % 128 + (if i + 1 < |Varint(v)| then 128 else 0)
  {
    PowPositive(128, i);
    if i > 0 {
      VarintDigit(v / 128, i - 1);
      PowPositive(128, i - 1);
      DivideTwice(v, 128, Pow(128, i - 1));
      assert Varint(v)[i] == Varint(v / 128)[i - 1];
    }
  }

  /** It is as short as it can be. */
  lemma {:induction false} VarintShortest(v: nat, n: nat)
    requires n > 0
    ensures |Varint(v)| <= n <==> v < Pow(128, n)
  {
    if n == 1 {
      assert Pow(128, 1) == 128 * Pow(128, 0) == 128;
    } else if v < 128 {
      AtLeastBase(n);
    } else {
      VarintShortest(v / 128, n - 1);
      DivideBelow(v, Pow(128, n - 1));
    }
  }

  lemma {:induction false} AtLeastBase(n: nat)
    requires n > 0
    ensures Pow(128, n) >= 128
  {
    PowPositive(128, n - 1);
  }

  lemma {:induction false} DivideBelow(v: nat, p: nat)
    ensures v / 128 < p <==> v < 128 * p
  {}

  /** The fixed form: digit by digit from the lowest. */
  lemma {:induction false} FixedDigit(n: nat, v: nat, i: nat)
    requires i < n
    ensures Pow(256, i) > 0 && Fixed(n, v)[i] as nat == v / Pow(256, i) % 256
  {
    PowPositive(256, i);
    if i > 0 {
      FixedDigit(n - 1, v / 256, i - 1);
      PowPositive(256, i - 1);
      DivideTwice(v, 256, Pow(256, i - 1));
    }
  }

  // ----- scalars -----

  /** The number that stands for a scalar: two's complement in 64 bits, or the sign in the lowest bit. */
  predicate Stands(k: Kind, v: Value, w: nat) {
    match (k, v)
    case (Bool, Truth(b)) => w == if b then 1 else 0
    case (Int(_), Number(n)) => w < TWO64 && (w - n) % TWO64 == 0
    case (UInt(_), Number(n)) => w == n
    case (SInt(_), Number(n)) => w % 2 == (if n < 0 then 1 else 0) && w / 2 == if n < 0 then -n - 1 else n
    case (Fixed32, Number(n)) => w == n
    case (Fixed64, Number(n)) => w == n
    case _ => false
  }

  /** Every number is written as the base-128 or the fixed form of what stands for it. */
  lemma {:induction false} ScalarOnWire(k: Kind, v: Value, b: Bytes)
    requires Packable(k) && Holds(k, v) && EncodeScalar(k, v) == Some(b)
    ensures exists w: nat :: Stands(k, v, w)
              && b == if k.Fixed32? then Fixed(4, w) else if k.Fixed64? then Fixed(8, w) else Varint(w)
  {
    var w := match k
      case Bool => if v.b then 1 else 0
      case Int(_) => Twos(v.n)
      case SInt(_) => ZigZag(v.n)
      case _ => v.n;
    if k.Int? {
      TwosStands(v.n);
    } else if k.SInt? {
      ZigZagStands(v.n);
    }
    assert Stands(k, v, w);
  }

  lemma {:induction false} TwosStands(n: int)
    requires -(TWO64 / 2) <= n < TWO64 / 2
    ensures Twos(n) < TWO64 && (Twos(n) - n) % TWO64 == 0
  {}

  lemma {:induction false} ZigZagStands(n: int)
    ensures ZigZag(n) % 2 == (if n < 0 then 1 else 0) && ZigZag(n) / 2 == if n < 0 then -n - 1 else n
  {}

  /** Doubled, and complemented if negative: the shifts of the encoder on a 64-bit word. */
  lemma {:induction false} ZigZagBits(n: int)
    requires -(TWO64 / 2) <= n < TWO64 / 2
    ensures ZigZag(n) == if n < 0 then TWO64 - 1 - 2 * Twos(n) % TWO64 else 2 * Twos(n) % TWO64
  {}

  /** What stands for a scalar is read as that scalar, whoever wrote it. */
  lemma {:induction false} WireIsScalar(k: Kind, v: Value, w: nat, rest: Bytes)
    requires KindOk(k) && Packable(k) && Holds(k, v) && Stands(k, v, w)
    ensures DecodeScalar(k, (if k.Fixed32? then Fixed(4, w) else if k.Fixed64? then Fixed(8, w) else Varint(w)) + rest)
            == Parsed(v, rest)
  {
    match k
    case Bool => ProtoScalars.ReadVarint32Back(w, rest);
    case Int(size) =>
      SameWord(w, v.n);
      ProtoScalars.IntBack(size, v.n, rest);
    case UInt(size) => ProtoScalars.UIntBack(size, v.n, rest);
    case SInt(size) =>
      assert w == ZigZag(v.n);
      ProtoScalars.SIntBack(size, v.n, rest);
    case Fixed32 =>
      Powers();
      ProtoScalars.FixedBack(4, v.n, rest);
    case Fixed64 =>
      Powers();
      ProtoScalars.FixedBack(8, v.n, rest);
  }

  /** A number that its field cannot hold is refused, whoever wrote it; one that it can hold is taken. */
  lemma {:induction false} UnsignedRange(size: nat, w: nat, rest: Bytes)
    requires WidthOk(size) && w < TWO64
    ensures DecodeScalar(UInt(size), Varint(w) + rest) ==
            if Holds(UInt(size), Number(w)) then Parsed(Number(w), rest) else Bad
  {
    Varint64RoundTrip(w, rest);
  }

  /** The low half of the word decides for a narrow field, the whole word for a wide one. */
  lemma {:induction false} SignedRange(size: nat, w: nat, n: int, rest: Bytes)
    requires WidthOk(size) && w < TWO64
    requires var span := if size == 8 then TWO64 else TWO32; -(span / 2) <= n < span / 2 && (w - n) % span == 0
    ensures DecodeScalar(Int(size), Varint(w) + rest) ==
            if Holds(Int(size), Number(n)) then Parsed(Number(n), rest) else Bad
  {
    Varint64RoundTrip(w, rest);
    CastIs(w, n, if size == 8 then TWO64 else TWO32);
  }

  lemma {:induction false} CastIs(w: nat, n: int, span: nat)
    requires span == TWO64 || span == TWO32
    requires -(span / 2) <= n < span / 2 && (w - n) % span == 0
    ensures Cast(w, span) == n
  {}

  lemma {:induction false} FoldedRange(size: nat, w: nat, rest: Bytes)
    requires WidthOk(size) && w < TWO64
    ensures var n := if w % 2 == 0 then w / 2 else -(w / 2) - 1;
            DecodeScalar(SInt(size), Varint(w) + rest) ==
            if Holds(SInt(size), Number(n)) then Parsed(Number(n), rest) else Bad
  {
    Varint64RoundTrip(w, rest);
  }

  lemma {:induction false} SameWord(w: nat, n: int)
    requires w < TWO64 && (w - n) % TWO64 == 0 && -(TWO64 / 2) <= n < TWO64 / 2
    ensures w == Twos(n)
  {}

  /** A tag carries the field number above three bits of wire type. */
  lemma {:induction false} TagOnWire(f: Field)
    ensures exists w: nat :: FieldTag(f) == Varint(w) && w / 8 == f.tag && w % 8 == WireType(f.kind)
  {
    assert FieldTag(f) == Varint(f.tag * 8 + WireType(f.kind));
  }

  /** The worked examples of the Protocol Buffers encoding: 150 as a varint and as field 1, and 3600 folded. */
  lemma {:induction false} Examples()
    ensures Varint(150) == [0x96, 0x01]
    ensures EncodeTagged(Field(1, Int(4), Required), Number(150)) == Some([0x08, 0x96, 0x01])
    ensures EncodeScalar(SInt(8), Number(3600)) == Some(Varint(7200))
    ensures EncodeScalar(SInt(4), Number(-1)) == Some([0x01]) && EncodeScalar(SInt(4), Number(1)) == Some([0x02])
  {
    assert Varint(1) == [0x01];
    assert Tag(0, 1) == [0x08] && Varint(150) == [0x96] + Varint(1);
    assert EncodeValue(Int(4), Number(150)) == Some(Varint(150)) && [0x08] + [0x96, 0x01] == [0x08, 0x96, 0x01];
  }
}
