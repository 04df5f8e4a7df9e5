/**
  What a stored checksum proves: it passes the check only if it is the one that belongs to the type and the
  contents, and one altered byte never goes unnoticed (util/crc32c.h, db/log_reader.cc, table/format.cc).
 */
module CrcErrors {
  import opened Wrappers
  import opened Strides
  import opened Crc32c
  import opened Schemes

  // ----- a check passes for one stored word only -----

  lemma {:induction false} ByteOf(b: byte, x: bv8)
    requires b as bv8 == x
    ensures Crc32c.ToByte(x) == b
  {
    ThereAndBack(b);
  }

  lemma {:induction false} ThereAndBack(b: byte)
    ensures (b as bv8) as byte == b
  {
    var x := BitsOf(b);
    ByteBack(x);
    assert ToByte(x) == b;
  }

  /** Every byte is that of some bits. */
  lemma {:induction false} BitsOf(b: byte) returns (x: bv8)
    ensures ToByte(x) == b
  {
    if b == 0 {
      x := 0;
    } else {
      var y := BitsOf(b - 1);
      x := y + 1;
      NextByte(y);
    }
  }

  lemma {:induction false} NextByte(x: bv8)
    requires ToByte(x) < 255
    ensures ToByte(x + 1) as nat == ToByte(x) as nat + 1
  {}

  lemma {:induction false} JoinParts(x: bv32, b0: bv8, b1: bv8, b2: bv8, b3: bv8)
    requires x == Join(b0 as bv32, b1 as bv32, b2 as bv32, b3 as bv32)
    ensures (x & 0xff) as bv8 == b0 && ((x >> 8) & 0xff) as bv8 == b1
    ensures ((x >> 16) & 0xff) as bv8 == b2 && ((x >> 24) & 0xff) as bv8 == b3
  {}

  lemma {:induction false} PartsStored(s: Word4, x: bv32, b0: bv8, b1: bv8, b2: bv8, b3: bv8)
    requires s[0] as bv8 == b0 && s[1] as bv8 == b1 && s[2] as bv8 == b2 && s[3] as bv8 == b3
    requires x == Join(b0 as bv32, b1 as bv32, b2 as bv32, b3 as bv32)
    ensures Stored(x) == s
  {
    JoinParts(x, b0, b1, b2, b3);
    StoredIs(s, x, b0, b1, b2, b3);
  }

  lemma {:induction false} LoadedIs(s: Word4, b0: bv8, b1: bv8, b2: bv8, b3: bv8)
    requires s[0] as bv8 == b0 && s[1] as bv8 == b1 && s[2] as bv8 == b2 && s[3] as bv8 == b3
    ensures FromStored(s) == Join(b0 as bv32, b1 as bv32, b2 as bv32, b3 as bv32)
  {
    LoadBits(s[0], b0);
    LoadBits(s[1], b1);
    LoadBits(s[2], b2);
    LoadBits(s[3], b3);
  }

  lemma {:induction false} StoredIs(s: Word4, x: bv32, b0: bv8, b1: bv8, b2: bv8, b3: bv8)
    requires s[0] as bv8 == b0 && s[1] as bv8 == b1 && s[2] as bv8 == b2 && s[3] as bv8 == b3
    requires (x & 0xff) as bv8 == b0 && ((x >> 8) & 0xff) as bv8 == b1
    requires ((x >> 16) & 0xff) as bv8 == b2 && ((x >> 24) & 0xff) as bv8 == b3
    ensures Stored(x) == s
  {
    ByteOf(s[0], b0);
    ByteOf(s[1], b1);
    ByteOf(s[2], b2);
    ByteOf(s[3], b3);
  }

  /** Every stored word is the stored form of what it reads as. */
  lemma {:induction false} FromStoredRoundTrip(s: Word4)
    ensures Stored(FromStored(s)) == s
  {
    var b0, b1, b2, b3 := s[0] as bv8, s[1] as bv8, s[2] as bv8, s[3] as bv8;
    LoadedIs(s, b0, b1, b2, b3);
    PartsStored(s, FromStored(s), b0, b1, b2, b3);
  }

  /** A masked and stored checksum reads as a value exactly if it was made of that value. */
  lemma {:induction false} MaskedIs(s: Word4, crc: bv32)
    ensures Unmask(FromStored(s)) == crc <==> s == Stored(Mask(crc))
  {
    StoredRoundTrip(Mask(crc));
    UnmaskMask(crc);
    FromStoredRoundTrip(s);
    UnmaskMask(FromStored(s));
  }

  /** The log reader's check accepts a stored sum exactly if it is the sum of the type and the payload. */
  lemma {:induction false} LogCheckIff(s: Word4, kind: byte, payload: Bytes)
    ensures LOG.check(s, kind, payload) <==> s == LOG.sum(kind, payload)
  {
    MaskedIs(s, Value([kind] + payload));
    ExtendedConcat(0, [kind], payload);
  }

  /** And so does the check of a table's blocks. */
  lemma {:induction false} TableCheckIff(s: Word4, kind: byte, contents: Bytes)
    ensures TABLE.check(s, kind, contents) <==> s == TABLE.sum(kind, contents)
  {
    MaskedIs(s, Value(contents + [kind]));
    ExtendedConcat(0, contents, [kind]);
  }

  lemma {:induction false} SchemesAreExact()
    ensures Exact(LOG) && Exact(TABLE)
  {
    forall s, kind, contents
      ensures LOG.check(s, kind, contents) <==> s == LOG.sum(kind, contents)
      ensures TABLE.check(s, kind, contents) <==> s == TABLE.sum(kind, contents)
    {
      LogCheckIff(s, kind, contents);
      TableCheckIff(s, kind, contents);
    }
  }

  // ----- an altered byte -----

  lemma {:induction false} BitInjective(a: bv32, b: bv32)
    requires Bit(a) == Bit(b)
    ensures a == b
  {}

  lemma {:induction false} EightInjective(a: bv32, b: bv32)
    requires CRC.Eight(a) == CRC.Eight(b)
    ensures a == b
  {
    CrcEight(a);
    CrcEight(b);
    FourInjective(Bit(Bit(Bit(Bit(a)))), Bit(Bit(Bit(Bit(b)))));
    FourInjective(a, b);
  }

  lemma {:induction false} FourInjective(a: bv32, b: bv32)
    requires Bit(Bit(Bit(Bit(a)))) == Bit(Bit(Bit(Bit(b))))
    ensures a == b
  {
    BitInjective(Bit(Bit(Bit(a))), Bit(Bit(Bit(b))));
    BitInjective(Bit(Bit(a)), Bit(Bit(b)));
    BitInjective(Bit(a), Bit(b));
    BitInjective(a, b);
  }

  lemma {:induction false} XorInjective(a: bv32, b: bv32, x: bv32)
    ensures Xor(a, x) == Xor(b, x) <==> a == b
    ensures Xor(x, a) == Xor(x, b) <==> a == b
  {}

  lemma {:induction false} LoadInjective(a: byte, b: byte)
    requires Load(a) == Load(b)
    ensures a == b
  {
    SameByte(a, b, a as bv8, b as bv8);
  }

  lemma {:induction false} SameByte(a: byte, b: byte, x: bv8, y: bv8)
    requires x == a as bv8 && y == b as bv8 && x as bv32 == y as bv32
    ensures a == b
  {
    assert x == y;
    ByteOf(a, x);
    ByteOf(b, y);
  }

  /** Different registers stay different through the same bytes. */
  lemma {:induction false} StaysDifferent(a: bv32, b: bv32, data: Bytes)
    requires a != b
    ensures CRC.Run(a, data) != CRC.Run(b, data)
  {
    if data != [] {
      var n := |data| - 1;
      StaysDifferent(a, b, data[..n]);
      StepDifferent(CRC.Run(a, data[..n]), CRC.Run(b, data[..n]), data[n]);
    }
  }

  lemma {:induction false} StepDifferent(a: bv32, b: bv32, x: byte)
    requires a != b
    ensures CRC.ByteStep(a, x) != CRC.ByteStep(b, x)
  {
    XorInjective(a, b, Load(x));
    if CRC.ByteStep(a, x) == CRC.ByteStep(b, x) {
      EightInjective(Xor(a, Load(x)), Xor(b, Load(x)));
    }
  }

  lemma {:induction false} ByteDifferent(a: bv32, x: byte, y: byte)
    requires x != y
    ensures CRC.ByteStep(a, x) != CRC.ByteStep(a, y)
  {
    if CRC.ByteStep(a, x) == CRC.ByteStep(a, y) {
      EightInjective(Xor(a, Load(x)), Xor(a, Load(y)));
      XorInjective(Load(x), Load(y), a);
      LoadInjective(x, y);
    }
  }

  /** Strings that differ in one byte have different checksums. */
  lemma {:induction false} OneByteChanges(before: Bytes, x: byte, y: byte, behind: Bytes)
    requires x != y
    ensures Value(before + [x] + behind) != Value(before + [y] + behind)
  {
    var l := CRC.Run(Xor(0, ONES), before);
    RunConcat(CRC, Xor(0, ONES), before + [x], behind);
    RunConcat(CRC, Xor(0, ONES), before + [y], behind);
    assert (before + [x])[..|before|] == before && (before + [y])[..|before|] == before;
    ByteDifferent(l, x, y);
    StaysDifferent(CRC.ByteStep(l, x), CRC.ByteStep(l, y), behind);
    XorInjective(CRC.Run(CRC.ByteStep(l, x), behind), CRC.Run(CRC.ByteStep(l, y), behind), ONES);
  }

  /** A log record with one byte of its payload altered does not pass under its stored sum. */
  lemma {:induction false} AlteredPayloadFails(kind: byte, before: Bytes, x: byte, y: byte, behind: Bytes)
    requires x != y
    ensures !LOG.check(LOG.sum(kind, before + [x] + behind), kind, before + [y] + behind)
  {
    var good, bad := before + [x] + behind, before + [y] + behind;
    ChecksumMatches(kind, good);
    OneByteChanges([kind] + before, x, y, behind);
    KindInFront(kind, before, [x], behind);
    KindInFront(kind, before, [y], behind);
  }

  lemma {:induction false} KindInFront(kind: byte, a: Bytes, b: Bytes, c: Bytes)
    ensures [kind] + (a + b + c) == ([kind] + a) + b + c
  {}

  lemma {:induction false} KindBehind(kind: byte, a: Bytes, b: Bytes, c: Bytes)
    ensures (a + b + c) + [kind] == a + b + (c + [kind])
  {}

  /** A table block with one byte altered does not pass under its stored sum. */
  lemma {:induction false} AlteredBlockFails(kind: byte, before: Bytes, x: byte, y: byte, behind: Bytes)
    requires x != y
    ensures !TABLE.check(TABLE.sum(kind, before + [x] + behind), kind, before + [y] + behind)
  {
    var good, bad := before + [x] + behind, before + [y] + behind;
    TableSumMatches(kind, good);
    OneByteChanges(before, x, y, behind + [kind]);
    KindBehind(kind, before, [x], behind);
    KindBehind(kind, before, [y], behind);
  }

  // ----- a known value -----

  lemma {:induction false} StepIs(c: bv32, b: byte, x: bv8, r: bv32)
    requires b as bv8 == x && EightBits(c ^ (x as bv32)) == r
    ensures CRC.ByteStep(c, b) == r
  {
    CrcEight(Xor(c, Load(b)));
  }

  lemma {:induction false} RunMore(data: Bytes, b: byte, c: bv32, x: bv8, r: bv32)
    requires CRC.Run(ONES, data) == c && b as bv8 == x && EightBits(c ^ (x as bv32)) == r
    ensures CRC.Run(ONES, data + [b]) == r
  {
    StepIs(c, b, x, r);
    assert (data + [b])[..|data|] == data;
  }

  lemma {:induction false} OneByteMore(d: Bytes, i: nat)
    requires i < |d|
    ensures d[..i + 1] == d[..i] + [d[i]]
  {}

  lemma {:induction false} RunTo(d: Bytes, i: nat, c: bv32, x: bv8, r: bv32)
    requires i < |d| && CRC.Run(ONES, d[..i]) == c
    requires d[i] == ToByte(x) && EightBits(c ^ (x as bv32)) == r
    ensures CRC.Run(ONES, d[..i + 1]) == r
  {
    OneByteMore(d, i);
    ByteBack(x);
    RunMore(d[..i], d[i], c, x, r);
  }

  lemma {:induction false} Digit1(d: Bytes)
    requires |d| > 0 && d[0] == 0x31 && CRC.Run(ONES, d[..0]) == 0xffff_ffff
    ensures CRC.Run(ONES, d[..1]) == 0x6f0a_661c
  {
    RunTo(d, 0, 0xffff_ffff, 0x31, 0x6f0a_661c);
  }

  lemma {:induction false} Digit2(d: Bytes)
    requires |d| > 1 && d[1] == 0x32 && CRC.Run(ONES, d[..1]) == 0x6f0a_661c
    ensures CRC.Run(ONES, d[..2]) == 0x8caa_3b9f
  {
    RunTo(d, 1, 0x6f0a_661c, 0x32, 0x8caa_3b9f);
  }

  lemma {:induction false} Digit3(d: Bytes)
    requires |d| > 2 && d[2] == 0x33 && CRC.Run(ONES, d[..2]) == 0x8caa_3b9f
    ensures CRC.Run(ONES, d[..3]) == 0xef84_d04d
  {
    RunTo(d, 2, 0x8caa_3b9f, 0x33, 0xef84_d04d);
  }

  lemma {:induction false} Digit4(d: Bytes)
    requires |d| > 3 && d[3] == 0x34 && CRC.Run(ONES, d[..3]) == 0xef84_d04d
    ensures CRC.Run(ONES, d[..4]) == 0x09c5_0b11
  {
    RunTo(d, 3, 0xef84_d04d, 0x34, 0x09c5_0b11);
  }

  lemma {:induction false} Digit5(d: Bytes)
    requires |d| > 4 && d[4] == 0x35 && CRC.Run(ONES, d[..4]) == 0x09c5_0b11
    ensures CRC.Run(ONES, d[..5]) == 0xe72e_dcca
  {
    RunTo(d, 4, 0x09c5_0b11, 0x35, 0xe72e_dcca);
  }

  lemma {:induction false} Digit6(d: Bytes)
    requires |d| > 5 && d[5] == 0x36 && CRC.Run(ONES, d[..5]) == 0xe72e_dcca
    ensures CRC.Run(ONES, d[..6]) == 0xbeca_8e79
  {
    RunTo(d, 5, 0xe72e_dcca, 0x36, 0xbeca_8e79);
  }

  lemma {:induction false} Digit7(d: Bytes)
    requires |d| > 6 && d[6] == 0x37 && CRC.Run(ONES, d[..6]) == 0xbeca_8e79
    ensures CRC.Run(ONES, d[..7]) == 0xedbd_6815
  {
    RunTo(d, 6, 0xbeca_8e79, 0x37, 0xedbd_6815);
  }

  lemma {:induction false} Digit8(d: Bytes)
    requires |d| > 7 && d[7] == 0x38 && CRC.Run(ONES, d[..7]) == 0xedbd_6815
    ensures CRC.Run(ONES, d[..8]) == 0x9f78_7f65
  {
    RunTo(d, 7, 0xedbd_6815, 0x38, 0x9f78_7f65);
  }

  lemma {:induction false} Digit9(d: Bytes)
    requires |d| > 8 && d[8] == 0x39 && CRC.Run(ONES, d[..8]) == 0x9f78_7f65
    ensures CRC.Run(ONES, d[..9]) == 0x1cf9_6d7c
  {
    RunTo(d, 8, 0x9f78_7f65, 0x39, 0x1cf9_6d7c);
  }

  /** The CRC32C of the digits one to nine. */
  lemma {:induction false} DigitsCrc(d: Bytes)
    requires |d| == 9 && forall i :: 0 <= i < 9 ==> d[i] as nat == 0x31 + i
    ensures Value(d) == 0xe306_9283
  {
    assert d[..0] == [] && CRC.Run(ONES, []) == ONES;
    Digit1(d);
    Digit2(d);
    Digit3(d);
    Digit4(d);
    Digit5(d);
    Digit6(d);
    Digit7(d);
    Digit8(d);
    Digit9(d);
    assert d[..9] == d && Xor(0, ONES) == ONES;
  }
}
