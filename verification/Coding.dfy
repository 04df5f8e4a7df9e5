/**
  Fixed-width and variable-width integers, and strings with a length in front (util/coding.cc, util/coding.h).

  Each coder is a loop or a branch over shifts; the two recursive functions Fixed and Varint say what
  it produces, and the decoders are shown to undo it in front of any further bytes.
 */
module Coding {
  import opened Wrappers

  const TWO32: nat := 0x1_0000_0000
  const TWO64: nat := 0x1_0000_0000_0000_0000

  function Pow(base: nat, n: nat): nat {
    if n == 0 then 1 else base * Pow(base, n - 1)
  }

  /** What a decoder found: a value, and the input after it. */
  datatype Parsed<+T> = Bad | Parsed(value: T, rest: Bytes)

  // ----- fixed width, lowest byte first -----

  function Fixed(n: nat, v: nat): (r: Bytes)
    ensures |r| == n
  {
    if n == 0 then [] else [(v % 256) as byte] + Fixed(n - 1, v / 256)
  }

  function Unfixed(s: Bytes): nat {
    if s == [] then 0 else s[0] as nat + 256 * Unfixed(s[1..])
  }

  lemma {:induction false} UnfixedFixed(n: nat, v: nat)
    requires v < Pow(256, n)
    ensures Unfixed(Fixed(n, v)) == v
  {
    if n > 0 {
      assert v / 256 < Pow(256, n - 1);
      UnfixedFixed(n - 1, v / 256);
      assert Fixed(n, v)[1..] == Fixed(n - 1, v / 256);
    }
  }

  lemma {:induction false} FixedUnfixed(s: Bytes)
    ensures Unfixed(s) < Pow(256, |s|) && Fixed(|s|, Unfixed(s)) == s
  {
    if s != [] {
      FixedUnfixed(s[1..]);
      assert Unfixed(s) / 256 == Unfixed(s[1..]) && Unfixed(s) % 256 == s[0] as nat;
    }
  }

  lemma {:induction false} Powers()
    ensures Pow(256, 2) == 0x1_0000 && Pow(256, 4) == TWO32 && Pow(256, 8) == TWO64
  {
    assert Pow(256, 1) == 256 && Pow(256, 3) == 0x100_0000 && Pow(256, 5) == 0x100_0000_0000;
    assert Pow(256, 6) == 0x1_0000_0000_0000 && Pow(256, 7) == 0x100_0000_0000_0000;
  }

  lemma {:induction false} Fixed32RoundTrip(v: nat)
    requires v < TWO32
    ensures Unfixed(Fixed(4, v)) == v
  {
    Powers();
    UnfixedFixed(4, v);
  }

  lemma {:induction false} Fixed64RoundTrip(v: nat)
    requires v < TWO64
    ensures Unfixed(Fixed(8, v)) == v
  {
    Powers();
    UnfixedFixed(8, v);
  }

  /** Byte by byte, as the portable branch stores them. */
  method EncodeFixed32(v: nat) returns (r: Bytes)
    requires v < TWO32
    ensures r == Fixed(4, v)
  {
    r := [(v % 256) as byte, (v / 0x100 % 256) as byte, (v / 0x1_0000 % 256) as byte, (v / 0x100_0000 % 256) as byte];
    FixedFour(v);
  }

  lemma {:induction false} FixedFour(v: nat)
    ensures Fixed(4, v) == [(v % 256) as byte, (v / 0x100 % 256) as byte, (v / 0x1_0000 % 256) as byte,
                            (v / 0x100_0000 % 256) as byte]
  {
    assert v / 256 / 256 == v / 0x1_0000 && v / 0x1_0000 / 256 == v / 0x100_0000;
    assert Fixed(1, v / 0x100_0000) == [(v / 0x100_0000 % 256) as byte];
    assert Fixed(2, v / 0x1_0000) == [(v / 0x1_0000 % 256) as byte] + Fixed(1, v / 0x100_0000);
    assert Fixed(3, v / 0x100) == [(v / 0x100 % 256) as byte] + Fixed(2, v / 0x1_0000);
  }

  // ----- variable width, seven bits at a time -----

  function Varint(v: nat): (r: Bytes)
    ensures |r| >= 1
  {
    if v < 128 then [v as byte] else [(v % 128 + 128) as byte] + Varint(v / 128)
  }

  /** Groups up to and including the first one without the continuation bit, of which there may be `max`. */
  function Groups(s: Bytes, max: nat): Parsed<nat> {
    if max == 0 || s == [] then
      Bad
    else if s[0] < 128 then
      Parsed(s[0] as nat, s[1..])
    else
      match Groups(s[1..], max - 1)
      case Bad => Bad
      case Parsed(v, rest) => Parsed((s[0] as nat) % 128 + 128 * v, rest)
  }

  function GetVarint32(s: Bytes): Parsed<nat> {
    match Groups(s, 5)
    case Bad => Bad
    case Parsed(v, rest) => Parsed(v % TWO32, rest)
  }

  function GetVarint64(s: Bytes): Parsed<nat> {
    match Groups(s, 10)
    case Bad => Bad
    case Parsed(v, rest) => Parsed(v % TWO64, rest)
  }

  lemma {:induction false} GroupsVarint(v: nat, max: nat, rest: Bytes)
    requires v < Pow(128, max) && max > 0
    ensures Groups(Varint(v) + rest, max) == Parsed(v, rest)
  {
    var s := Varint(v) + rest;
    if v >= 128 {
      assert v / 128 < Pow(128, max - 1);
      GroupsVarint(v / 128, max - 1, rest);
      assert s[1..] == Varint(v / 128) + rest;
    } else {
      assert s[1..] == rest;
    }
  }

  lemma {:induction false} FiveGroups()
    ensures Pow(128, 5) == 0x8_0000_0000
  {
    assert Pow(128, 2) == 0x4000 && Pow(128, 4) == 0x1000_0000;
  }

  lemma {:induction false} TenGroups()
    ensures Pow(128, 10) == 0x40_0000_0000_0000_0000
  {
    FiveGroups();
    assert Pow(128, 7) == 0x2_0000_0000_0000 && Pow(128, 9) == 0x8000_0000_0000_0000;
  }

  lemma {:induction false} Varint32RoundTrip(v: nat, rest: Bytes)
    requires v < TWO32
    ensures GetVarint32(Varint(v) + rest) == Parsed(v, rest)
  {
    assert v < Pow(128, 5) by {
      FiveGroups();
    }
    GroupsVarint(v, 5, rest);
    Small(v, TWO32);
  }

  lemma {:induction false} Varint64RoundTrip(v: nat, rest: Bytes)
    requires v < TWO64
    ensures GetVarint64(Varint(v) + rest) == Parsed(v, rest)
  {
    assert v < Pow(128, 10) by {
      TenGroups();
    }
    GroupsVarint(v, 10, rest);
    Small(v, TWO64);
  }

  lemma {:induction false} Small(v: nat, m: nat)
    requires v < m
    ensures v % m == v
  {}

  /** A coded integer that is cut short is not read as another one. */
  lemma {:induction false} CutVarintIsBad(v: nat, n: nat, max: nat)
    requires n < |Varint(v)|
    ensures Groups(Varint(v)[..n], max) == Bad
  {
    var s := Varint(v)[..n];
    if v >= 128 && n > 0 && max > 0 {
      CutVarintIsBad(v / 128, n - 1, max - 1);
      assert s[1..] == Varint(v / 128)[..n - 1];
    }
  }

  /** A decoder only ever consumes a non-empty front of its input. */
  lemma {:induction false} GroupsConsumes(s: Bytes, max: nat)
    ensures match Groups(s, max)
            case Bad => true
            case Parsed(v, rest) => |rest| < |s| && rest == s[|s| - |rest|..] && v < Pow(128, max)
  {
    if max > 0 && s != [] {
      GroupsConsumes(s[1..], max - 1);
      if s[0] < 128 {
        PowPositive(max - 1);
      }
    }
  }

  lemma {:induction false} PowPositive(n: nat)
    ensures Pow(128, n) >= 1
  {
    if n > 0 {
      PowPositive(n - 1);
    }
  }

  lemma {:induction false} VarintLengthBound(v: nat, n: nat)
    requires v < Pow(128, n) && n > 0
    ensures |Varint(v)| <= n
  {
    if v >= 128 {
      assert v / 128 < Pow(128, n - 1);
      VarintLengthBound(v / 128, n - 1);
    }
  }

  /** Ten bytes are enough for any 64-bit number. */
  lemma {:induction false} TenBytes(v: nat)
    requires v < TWO64
    ensures |Varint(v)| <= 10
  {
    TenGroups();
    VarintLengthBound(v, 10);
  }

  method EncodeVarint32(v: nat) returns (r: Bytes)
    requires v < TWO32
    ensures r == Varint(v)
  {
    if v < 0x80 {
      r := [v as byte];
    } else if v < 0x4000 {
      r := [More(v), (v / 0x80) as byte];
    } else if v < 0x20_0000 {
      r := [More(v), More(v / 0x80), (v / 0x4000) as byte];
    } else if v < 0x1000_0000 {
      r := [More(v), More(v / 0x80), More(v / 0x4000), (v / 0x20_0000) as byte];
    } else {
      r := [More(v), More(v / 0x80), More(v / 0x4000), More(v / 0x20_0000), (v / 0x1000_0000) as byte];
    }
    VarintUnrolled(v);
  }

  /** The low seven bits with the continuation bit set, as a byte. */
  function More(v: nat): byte {
    (v % 128 + 128) as byte
  }

  lemma {:induction false} VarintUnrolled(v: nat)
    requires v < TWO32
    ensures Varint(v) ==
            if v < 0x80 then [v as byte]
            else if v < 0x4000 then [More(v), (v / 0x80) as byte]
            else if v < 0x20_0000 then [More(v), More(v / 0x80), (v / 0x4000) as byte]
            else if v < 0x1000_0000 then [More(v), More(v / 0x80), More(v / 0x4000), (v / 0x20_0000) as byte]
            else [More(v), More(v / 0x80), More(v / 0x4000), More(v / 0x20_0000), (v / 0x1000_0000) as byte]
  {
    var a, b, c, d := v / 0x80, v / 0x4000, v / 0x20_0000, v / 0x1000_0000;
    assert a / 128 == b && b / 128 == c && c / 128 == d;
    assert v >= 0x80 ==> Varint(v) == [More(v)] + Varint(a);
    assert v >= 0x4000 ==> Varint(a) == [More(a)] + Varint(b);
    assert v >= 0x20_0000 ==> Varint(b) == [More(b)] + Varint(c);
    assert v >= 0x1000_0000 ==> Varint(c) == [More(c)] + Varint(d);
  }

  method EncodeVarint64(value: nat) returns (r: Bytes)
    ensures r == Varint(value)
  {
    var v := value;
    r := [];
    while v >= 128
      invariant r + Varint(v) == Varint(value)
    {
      assert r + Varint(v) == (r + [More(v)]) + Varint(v / 128);
      r := r + [More(v)];
      v := v / 128;
    }
    r := r + [v as byte];
  }

  method VarintLength(value: nat) returns (len: nat)
    ensures len == |Varint(value)|
  {
    var v := value;
    len := 1;
    while v >= 128
      invariant len + |Varint(v)| == 1 + |Varint(value)|
    {
      v := v / 128;
      len := len + 1;
    }
  }

  /** What the decoding loop still has to add, `scale` being two to the current shift. */
  function Shifted(p: Parsed<nat>, result: nat, scale: nat, modulus: nat): Parsed<nat>
    requires modulus > 0
  {
    match p
    case Bad => Bad
    case Parsed(v, rest) => Parsed((result + scale * v) % modulus, rest)
  }

  lemma {:induction false} ShiftGroup(s: Bytes, max: nat, result: nat, scale: nat, modulus: nat)
    requires max > 0 && s != [] && modulus > 0
    ensures var low := (result + (s[0] as nat) % 128 * scale) % modulus;
            Shifted(Groups(s, max), result, scale, modulus) ==
            if s[0] < 128 then Parsed(low, s[1..])
            else Shifted(Groups(s[1..], max - 1), low, scale * 128, modulus)
  {
    var b := (s[0] as nat) % 128;
    if s[0] >= 128 {
      ShiftParsed(Groups(s[1..], max - 1), b, result, scale, modulus);
    } else {
      assert scale * b == b * scale;
    }
  }

  lemma {:induction false} ShiftParsed(p: Parsed<nat>, b: nat, result: nat, scale: nat, modulus: nat)
    requires modulus > 0
    ensures Shifted(if p.Bad? then Bad else Parsed(b + 128 * p.value, p.rest), result, scale, modulus)
            == Shifted(p, (result + b * scale) % modulus, scale * 128, modulus)
  {
    if p.Parsed? {
      ShiftMore(b, p.value, result, scale, modulus);
    }
  }

  lemma {:induction false} ShiftMore(b: nat, v: nat, result: nat, scale: nat, modulus: nat)
    requires modulus > 0
    ensures (result + scale * (b + 128 * v)) % modulus
            == ((result + b * scale) % modulus + (scale * 128) * v) % modulus
  {
    ScaleGroup(result, b, v, scale);
    ModSum(result + b * scale, (scale * 128) * v, modulus);
  }

  lemma {:induction false} ScaleGroup(result: nat, b: nat, v: nat, scale: nat)
    ensures result + scale * (b + 128 * v) == (result + b * scale) + (scale * 128) * v
  {
    assert scale * (b + 128 * v) == scale * b + scale * (128 * v);
    assert scale * (128 * v) == (scale * 128) * v;
  }

  lemma {:induction false} ModSum(a: nat, b: nat, m: nat)
    requires m > 0
    ensures (a % m + b) % m == (a + b) % m
  {
    var q := (a % m + b) / m;
    var x := (a % m + b) % m;
    Distribute(a / m, q, m);
    Remainder(a + b, a / m + q, x, m);
  }

  lemma {:induction false} Distribute(a: nat, b: nat, m: nat)
    ensures (a + b) * m == a * m + b * m
  {}

  lemma {:induction false} Remainder(y: nat, q: nat, x: nat, m: nat)
    requires y == q * m + x && x < m
    ensures y % m == x
  {
    var d := q - y / m;
    assert d * m == y % m - x by {
      assert d * m == q * m - y / m * m;
    }
    assert d >= 1 ==> d * m >= m;
    assert d <= -1 ==> d * m + m <= 0;
  }

  /** The shifted groups do not overlap, so adding them is what the code's bitwise or does. */
  method GetVarint32Ptr(s: Bytes) returns (r: Parsed<nat>)
    ensures r == GetVarint32(s)
  {
    if s != [] && s[0] < 128 {
      return Parsed(s[0] as nat, s[1..]);
    }
    r := ReadGroups(s, 5, TWO32);
  }

  method GetVarint64Ptr(s: Bytes) returns (r: Parsed<nat>)
    ensures r == GetVarint64(s)
  {
    r := ReadGroups(s, 10, TWO64);
  }

  /** One group further on in the input. */
  lemma {:induction false} GroupRead(s: Bytes, p: nat, max: nat, result: nat, scale: nat, low: nat, modulus: nat)
    requires p < |s| && max > 0 && modulus > 0 && low == (result + (s[p] as nat) % 128 * scale) % modulus
    ensures s[p] < 128 ==> Shifted(Groups(s[p..], max), result, scale, modulus) == Parsed(low, s[p + 1..])
    ensures s[p] >= 128 ==> Shifted(Groups(s[p..], max), result, scale, modulus) ==
                            Shifted(Groups(s[p + 1..], max - 1), low, scale * 128, modulus)
  {
    ShiftGroup(s[p..], max, result, scale, modulus);
    assert s[p..][1..] == s[p + 1..];
  }

  lemma {:induction false} NothingRead(s: Bytes, p: nat, max: nat, result: nat, scale: nat, modulus: nat)
    requires p <= |s| && (p == |s| || max == 0) && modulus > 0
    ensures Shifted(Groups(s[p..], max), result, scale, modulus) == Bad
  {}

  method ReadGroups(s: Bytes, max: nat, modulus: nat) returns (r: Parsed<nat>)
    requires modulus > 0
    ensures r == Shifted(Groups(s, max), 0, 1, modulus)
  {
    var p: nat, result: nat, scale: nat, group: nat := 0, 0, 1, 0;
    assert s[p..] == s;
    while group < max && p < |s|
      invariant p == group <= |s| && group <= max
      invariant Shifted(Groups(s, max), 0, 1, modulus) == Shifted(Groups(s[p..], max - group), result, scale, modulus)
    {
      var low := (result + (s[p] as nat) % 128 * scale) % modulus;
      GroupRead(s, p, max - group, result, scale, low, modulus);
      result, p := low, p + 1;
      if s[p - 1] < 128 {
        return Parsed(result, s[p..]);
      }
      scale := scale * 128;
      group := group + 1;
    }
    NothingRead(s, p, max - group, result, scale, modulus);
    return Bad;
  }

  lemma {:induction false} SameAt(a: Bytes, b: Bytes, n: nat, i: nat)
    requires i < n <= |a| && n <= |b| && a[..n] == b[..n]
    ensures a[i] == b[i]
  {
    assert a[..n][i] == b[..n][i];
  }

  // ----- strings with their length in front -----

  function LengthPrefixed(s: Bytes): Bytes {
    Varint(|s| % TWO32) + s
  }

  function GetLengthPrefixed(s: Bytes): Parsed<Bytes> {
    match GetVarint32(s)
    case Bad => Bad
    case Parsed(len, rest) => if len <= |rest| then Parsed(rest[..len], rest[len..]) else Bad
  }

  lemma {:induction false} PrefixedConsumes(s: Bytes)
    ensures GetLengthPrefixed(s).Parsed? ==> |GetLengthPrefixed(s).rest| < |s|
  {
    GroupsConsumes(s, 5);
  }

  lemma {:induction false} LengthPrefixedRoundTrip(s: Bytes, rest: Bytes)
    requires |s| < TWO32
    ensures GetLengthPrefixed(LengthPrefixed(s) + rest) == Parsed(s, rest)
  {
    Varint32RoundTrip(|s|, s + rest);
    assert LengthPrefixed(s) + rest == Varint(|s|) + (s + rest);
    assert (s + rest)[..|s|] == s && (s + rest)[|s|..] == rest;
  }
}
