/**
  CRC32C over a byte string and the masking of stored checksums (util/crc32c.cc, util/crc32c.h).

  The lookup tables hold what the polynomial makes of each byte: one byte step for the byte table,
  sixteen for the stride tables.
 */
module Crc32c {
  import opened Wrappers
  import opened Strides

  // ----- 32-bit registers -----

  function Xor(a: bv32, b: bv32): bv32 {
    a ^ b
  }

  /** One bit of the reflected Castagnoli polynomial. */
  function Bit(c: bv32): bv32 {
    if c & 1 == 1 then (c >> 1) ^ 0x82f6_3b78 else c >> 1
  }

  function Load(b: byte): bv32 {
    (b as bv8) as bv32
  }

  function Low(c: bv32): bv32 {
    c & 0xff
  }

  function Rest(c: bv32): bv32 {
    c & 0xffff_ff00
  }

  function Shift(c: bv32): bv32 {
    c >> 8
  }

  function Second(c: bv32): bv32 {
    (c >> 8) & 0xff
  }

  function Third(c: bv32): bv32 {
    (c >> 16) & 0xff
  }

  function Top(c: bv32): bv32 {
    c >> 24
  }

  function Up8(c: bv32): bv32 {
    c << 8
  }

  function Up16(c: bv32): bv32 {
    c << 16
  }

  function Up24(c: bv32): bv32 {
    c << 24
  }

  /** A little-endian word from its four bytes. */
  function Join(b0: bv32, b1: bv32, b2: bv32, b3: bv32): bv32 {
    b0 | (b1 << 8) | (b2 << 16) | (b3 << 24)
  }

  const CRC: Machine<bv32> :=
    Machine(Xor, Bit, Load, Low, Rest, Shift, Second, Third, Top, Up8, Up16, Up24, Join)

  // ----- exclusive or -----

  lemma {:induction false} XorCommutes(a: bv32, b: bv32)
    ensures Xor(a, b) == Xor(b, a)
  {}

  lemma {:induction false} XorAssociates(a: bv32, b: bv32, c: bv32)
    ensures Xor(Xor(a, b), c) == Xor(a, Xor(b, c))
  {}

  // ----- the bit step is linear -----

  lemma {:induction false} BitOfEven(a: bv32, b: bv32)
    requires a & 1 == 0 && b & 1 == 0
    ensures Bit(Xor(a, b)) == Xor(Bit(a), Bit(b))
  {}

  lemma {:induction false} BitOfMixed(a: bv32, b: bv32)
    requires a & 1 == 1 && b & 1 == 0
    ensures Bit(Xor(a, b)) == Xor(Bit(a), Bit(b))
  {}

  lemma {:induction false} BitOfOdd(a: bv32, b: bv32)
    requires a & 1 == 1 && b & 1 == 1
    ensures Bit(Xor(a, b)) == Xor(Bit(a), Bit(b))
  {}

  lemma {:induction false} LowBit(a: bv32)
    ensures a & 1 == 0 || a & 1 == 1
  {}

  lemma {:induction false} BitOfSum(a: bv32, b: bv32)
    ensures Bit(Xor(a, b)) == Xor(Bit(a), Bit(b))
  {
    LowBit(a);
    LowBit(b);
    if a & 1 == 0 && b & 1 == 0 {
      BitOfEven(a, b);
    } else if a & 1 == 1 && b & 1 == 0 {
      BitOfMixed(a, b);
    } else if a & 1 == 1 {
      BitOfOdd(a, b);
    } else {
      BitOfMixed(b, a);
      XorCommutes(a, b);
      XorCommutes(Bit(a), Bit(b));
    }
  }

  // ----- bytes of a register -----

  function EightBits(c: bv32): bv32 {
    Bit(Bit(Bit(Bit(Bit(Bit(Bit(Bit(c))))))))
  }

  lemma {:induction false} ShiftOut(a: bv32)
    requires a & 0xff == 0
    ensures EightBits(a) == a >> 8
  {}

  lemma {:induction false} RestShifts(c: bv32)
    ensures Xor(Low(c), Rest(c)) == c && Rest(c) & 0xff == 0 && Rest(c) >> 8 == Shift(c)
  {}

  lemma {:induction false} MixLow(c: bv32, b: bv32)
    requires b < 256
    ensures Low(Xor(c, b)) == Xor(Low(c), b) && Shift(Xor(c, b)) == Shift(c)
  {}

  lemma {:induction false} SplitWord(c: bv32)
    ensures Xor(Xor(Xor(Low(c), Up8(Second(c))), Up16(Third(c))), Up24(Top(c))) == c
  {}

  lemma {:induction false} PlaceShifts(b: bv32)
    requires b < 256
    ensures Up8(b) & 0xff == 0 && Up8(b) >> 8 == b
    ensures Up16(b) & 0xff == 0 && Up16(b) >> 8 == Up8(b)
    ensures Up24(b) & 0xff == 0 && Up24(b) >> 8 == Up16(b)
  {}

  lemma {:induction false} LoadIsByte(b: byte)
    ensures Load(b) < 256 && Load(b) & 0xffff_ff00 == 0
  {}

  lemma {:induction false} JoinIsXor(b0: bv32, b1: bv32, b2: bv32, b3: bv32)
    requires b0 & 0xffff_ff00 == 0 && b1 & 0xffff_ff00 == 0 && b2 & 0xffff_ff00 == 0 && b3 & 0xffff_ff00 == 0
    ensures b0 | (b1 << 8) | (b2 << 16) | (b3 << 24) == Xor(Xor(Xor(b0, b1 << 8), b2 << 16), b3 << 24)
  {}

  // ----- the laws of the stride loop -----

  lemma {:induction false} CrcSwaps(a: bv32, b: bv32)
    ensures CRC.xor(a, b) == CRC.xor(b, a)
  {
    XorCommutes(a, b);
  }

  lemma {:induction false} CrcRegroups(a: bv32, b: bv32, c: bv32)
    ensures CRC.xor(CRC.xor(a, b), c) == CRC.xor(a, CRC.xor(b, c))
  {
    XorAssociates(a, b, c);
  }

  lemma {:induction false} CrcCommutes()
    ensures Obeys(CRC, Commutative)
  {
    forall a, b
      ensures CRC.xor(a, b) == CRC.xor(b, a)
    {
      CrcSwaps(a, b);
    }
    forall a, b, c
      ensures CRC.xor(CRC.xor(a, b), c) == CRC.xor(a, CRC.xor(b, c))
    {
      CrcRegroups(a, b, c);
    }
  }

  lemma {:induction false} CrcIsLinear()
    ensures Obeys(CRC, Law.Linear)
  {
    forall a, b
      ensures CRC.bit(CRC.xor(a, b)) == CRC.xor(CRC.bit(a), CRC.bit(b))
    {
      BitOfSum(a, b);
    }
  }

  lemma {:induction false} CrcEight(c: bv32)
    ensures CRC.Eight(c) == EightBits(c)
  {}

  lemma {:induction false} CrcIsPieced()
    ensures Obeys(CRC, Pieced)
  {
    forall c
      ensures CRC.xor(CRC.low(c), CRC.rest(c)) == c && CRC.Eight(CRC.rest(c)) == CRC.shift(c)
    {
      RestShifts(c);
      ShiftOut(Rest(c));
      CrcEight(Rest(c));
    }
    forall c, b
      ensures CRC.low(CRC.xor(c, CRC.load(b))) == CRC.xor(CRC.low(c), CRC.load(b))
      ensures CRC.shift(CRC.xor(c, CRC.load(b))) == CRC.shift(c)
    {
      LoadIsByte(b);
      MixLow(c, Load(b));
    }
    forall c
      ensures CRC.xor(CRC.xor(CRC.xor(CRC.low(c), CRC.up8(CRC.second(c))), CRC.up16(CRC.third(c))),
              CRC.up24(CRC.top(c))) == c
    {
      SplitWord(c);
    }
  }

  lemma {:induction false} BytePlaces(b: byte)
    ensures CRC.Eight(CRC.up8(CRC.load(b))) == CRC.load(b)
    ensures CRC.Eight(CRC.up16(CRC.load(b))) == CRC.up8(CRC.load(b))
    ensures CRC.Eight(CRC.up24(CRC.load(b))) == CRC.up16(CRC.load(b))
  {
    var v := Load(b);
    LoadIsByte(b);
    PlaceShifts(v);
    ShiftOut(Up8(v));
    ShiftOut(Up16(v));
    ShiftOut(Up24(v));
    CrcEight(Up8(v));
    CrcEight(Up16(v));
    CrcEight(Up24(v));
  }

  lemma {:induction false} JoinBytes(a: byte, b: byte, c: byte, d: byte)
    ensures CRC.join(CRC.load(a), CRC.load(b), CRC.load(c), CRC.load(d))
            == CRC.xor(CRC.xor(CRC.xor(CRC.load(a), CRC.up8(CRC.load(b))), CRC.up16(CRC.load(c))),
              CRC.up24(CRC.load(d)))
  {
    LoadIsByte(a);
    LoadIsByte(b);
    LoadIsByte(c);
    LoadIsByte(d);
    JoinIsXor(Load(a), Load(b), Load(c), Load(d));
  }

  lemma {:induction false} CrcIsPlaced()
    ensures Obeys(CRC, Placed)
  {
    forall b
      ensures CRC.Eight(CRC.up8(CRC.load(b))) == CRC.load(b)
      ensures CRC.Eight(CRC.up16(CRC.load(b))) == CRC.up8(CRC.load(b))
      ensures CRC.Eight(CRC.up24(CRC.load(b))) == CRC.up16(CRC.load(b))
    {
      BytePlaces(b);
    }
    forall a, b, c, d
      ensures CRC.join(CRC.load(a), CRC.load(b), CRC.load(c), CRC.load(d))
              == CRC.xor(CRC.xor(CRC.xor(CRC.load(a), CRC.up8(CRC.load(b))), CRC.up16(CRC.load(c))),
                CRC.up24(CRC.load(d)))
    {
      JoinBytes(a, b, c, d);
    }
  }

  lemma {:induction false} CrcIsLawful()
    ensures Lawful(CRC)
  {
    forall law
      ensures Obeys(CRC, law)
    {
      match law
      case Commutative => CrcCommutes();
      case Linear => CrcIsLinear();
      case Pieced => CrcIsPieced();
      case Placed => CrcIsPlaced();
    }
  }

  // ----- checksums -----

  const ONES: bv32 := 0xffff_ffff

  /** The checksum, bit by bit, of a string with checksum `crc` followed by `data`. */
  function Extended(crc: bv32, data: Bytes): bv32 {
    Xor(CRC.Run(Xor(crc, ONES), data), ONES)
  }

  function Value(data: Bytes): bv32 {
    Extended(0, data)
  }

  lemma {:induction false} XorOnesTwice(x: bv32)
    ensures Xor(Xor(x, ONES), ONES) == x
  {}

  lemma {:induction false} XorZero(x: bv32)
    ensures Xor(x, 0) == x
  {}

  /** Checksums of pieces compose. */
  lemma {:induction false} ExtendedConcat(crc: bv32, a: Bytes, b: Bytes)
    ensures Extended(Extended(crc, a), b) == Extended(crc, a + b)
  {
    XorOnesTwice(CRC.Run(Xor(crc, ONES), a));
    RunConcat(CRC, Xor(crc, ONES), a, b);
  }

  /** The portable loop, for `data` starting at memory address `address`. */
  method Extend(crc: bv32, data: Bytes, address: nat) returns (r: bv32)
    ensures r == Extended(crc, data)
  {
    CrcIsLawful();
    forall x
      ensures CRC.xor(x, 0) == x
    {
      XorZero(x);
    }
    var l := Update(CRC, 0, Xor(crc, ONES), data, address);
    r := Xor(l, ONES);
  }

  // ----- stored checksums -----

  const MASK_DELTA: bv32 := 0xa282_ead8

  function Mask(crc: bv32): bv32 {
    ((crc >> 15) | (crc << 17)) + MASK_DELTA
  }

  function Unmask(masked: bv32): bv32 {
    var rot := masked - MASK_DELTA;
    (rot >> 17) | (rot << 15)
  }

  lemma {:induction false} UnmaskMask(crc: bv32)
    ensures Unmask(Mask(crc)) == crc && Mask(Unmask(crc)) == crc
  {}

  function ToByte(x: bv8): byte {
    x as byte
  }

  /** A word as the four bytes that store it, lowest first. */
  function Stored(x: bv32): Word4 {
    [ToByte((x & 0xff) as bv8), ToByte(((x >> 8) & 0xff) as bv8),
     ToByte(((x >> 16) & 0xff) as bv8), ToByte(((x >> 24) & 0xff) as bv8)]
  }

  function FromStored(s: Word4): bv32 {
    Join(Load(s[0]), Load(s[1]), Load(s[2]), Load(s[3]))
  }

  lemma {:induction false} ByteBack(x: bv8)
    ensures ToByte(x) as bv8 == x
  {}

  lemma {:induction false} LoadBits(b: byte, x: bv8)
    requires b as bv8 == x
    ensures Load(b) == x as bv32
  {}

  lemma {:induction false} LoadByte(x: bv8)
    ensures Load(ToByte(x)) == x as bv32
  {
    ByteBack(x);
    LoadBits(ToByte(x), x);
  }

  lemma {:induction false} JoinSplit(x: bv32)
    ensures Join(((x & 0xff) as bv8) as bv32, (((x >> 8) & 0xff) as bv8) as bv32,
                 (((x >> 16) & 0xff) as bv8) as bv32, (((x >> 24) & 0xff) as bv8) as bv32) == x
  {}

  lemma {:induction false} StoredRoundTrip(x: bv32)
    ensures FromStored(Stored(x)) == x
  {
    LoadByte((x & 0xff) as bv8);
    LoadByte(((x >> 8) & 0xff) as bv8);
    LoadByte(((x >> 16) & 0xff) as bv8);
    LoadByte(((x >> 24) & 0xff) as bv8);
    JoinSplit(x);
  }

  /** The checksum of a type byte and a payload, as a log or a table stores it. */
  function Checksum(kind: byte, payload: Bytes): Word4 {
    Stored(Mask(Extended(Value([kind]), payload)))
  }

  function Matches(stored: Word4, kind: byte, payload: Bytes): bool {
    Unmask(FromStored(stored)) == Value([kind] + payload)
  }

  /** What was stored for a type and a payload passes the reader's check. */
  lemma {:induction false} ChecksumMatches(kind: byte, payload: Bytes)
    ensures Matches(Checksum(kind, payload), kind, payload)
  {
    var crc := Extended(Value([kind]), payload);
    StoredRoundTrip(Mask(crc));
    UnmaskMask(crc);
    ExtendedConcat(0, [kind], payload);
  }
}
