/** Input streams and their substreams (pb_decode.c), each operation on the bytes that are left. */
module PbStream {
  import opened Wrappers
  import opened Coding
  import opened Proto
  import opened ProtoWire

  class IStream {
    const data: Bytes
    var pos: nat
    var bytesLeft: nat

    ghost predicate Valid()
      reads this
    {
      pos + bytesLeft <= |data|
    }

    ghost function End(): nat
      reads this
    {
      pos + bytesLeft
    }

    ghost function Rest(): Bytes
      requires Valid()
      reads this
    {
      data[pos..pos + bytesLeft]
    }

    constructor (data: Bytes, pos: nat, bytesLeft: nat)
      requires pos + bytesLeft <= |data|
      ensures Valid() && this.data == data && this.pos == pos && this.bytesLeft == bytesLeft
    {
      this.data, this.pos, this.bytesLeft := data, pos, bytesLeft;
    }

    method Read(count: nat) returns (ok: bool, buf: Bytes)
      requires Valid()
      modifies this
      ensures Valid() && End() == old(End())
      ensures ok <==> count <= |old(Rest())|
      ensures ok ==> buf == old(Rest())[..count] && Rest() == old(Rest())[count..]
    {
      buf := [];
      if count == 0 {
        return true, [];
      }
      if bytesLeft < count {
        return false, [];
      }
      buf := data[pos..pos + count];
      pos, bytesLeft := pos + count, bytesLeft - count;
      ok := true;
    }

    method ReadByte() returns (ok: bool, b: byte)
      requires Valid()
      modifies this
      ensures Valid() && End() == old(End())
      ensures ok <==> old(Rest()) != []
      ensures ok ==> b == old(Rest())[0] && Rest() == old(Rest())[1..]
      ensures !ok ==> bytesLeft == 0
    {
      b := 0;
      if bytesLeft == 0 {
        return false, 0;
      }
      b := data[pos];
      pos, bytesLeft := pos + 1, bytesLeft - 1;
      ok := true;
    }

    // ----- integers of variable width -----

    /** Five groups of seven bits, of which the fifth has room for four, and padding. */
    method DecodeVarint32() returns (ok: bool, value: nat, eof: bool)
      requires Valid()
      modifies this
      ensures Valid() && End() == old(End())
      ensures eof <==> old(Rest()) == []
      ensures match ReadVarint32(old(Rest()))
              case Bad => !ok
              case Parsed(v, rest) => ok && value == v && Rest() == rest
    {
      ghost var s := Rest();
      var b: byte;
      ok, b := ReadByte();
      value, eof := b as nat % 128, !ok;
      if ok {
        FirstRead(s);
        ok, value := DecodeMultibyte(b, value, s);
      }
    }

    /** The groups after the first one. */
    method DecodeMultibyte(first: byte, low: nat, ghost s: Bytes) returns (ok: bool, value: nat)
      requires Valid() && ReadSoFar(s, [first], Rest(), low)
      modifies this
      ensures Valid() && End() == old(End())
      ensures match ReadVarint32(s)
              case Bad => !ok
              case Parsed(v, rest) => ok && value == v && Rest() == rest
    {
      var b, group: nat := first, 1;
      ghost var read := [first];
      value := low;
      while b >= 128
        invariant Valid() && End() == old(End())
        invariant ReadSoFar(s, read, Rest(), value) && group == |read| && b == read[group - 1]
        decreases 5 - group
      {
        NextRead(s, read, Rest(), value);
        if group == 5 {
          ok, value := DecodePadding(value % TWO32);
          return;
        }
        ok, b := ReadByte();
        if !ok {
          return false, 0;
        }
        value := Plus(value, group, b);
        read, group := read + [b], group + 1;
      }
      LastRead(s, read, Rest(), value);
      ok := !(group == 5 && b / 16 % 8 != 0);
    }

    /** The groups behind the fifth. */
    method DecodePadding(start: nat) returns (ok: bool, value: nat)
      requires Valid() && start < TWO32
      modifies this
      ensures Valid() && End() == old(End())
      ensures match ReadPadding(old(Rest()), start, 35)
              case Bad => !ok
              case Parsed(v, rest) => ok && value == v && Rest() == rest
    {
      value := start;
      var bitpos: nat := 35;
      while true
        invariant Valid() && End() == old(End()) && value < TWO32 && bitpos < 256
        invariant ReadPadding(old(Rest()), start, 35) == ReadPadding(Rest(), value, bitpos)
        decreases bytesLeft
      {
        var b: byte;
        ok, b := ReadByte();
        if !ok {
          return;
        }
        if bitpos >= 32 {
          if !PaddingOk(value, b, bitpos) {
            return false, 0;
          }
        } else {
          value := Joined(value, b, bitpos);
        }
        bitpos := (bitpos + 7) % 256;
        if b < 128 {
          ok := !(bitpos == 35 && b / 16 % 8 != 0);
          return;
        }
      }
    }

    /** Ten groups of seven bits, the tenth with its upper bits cut off. */
    method DecodeVarint() returns (ok: bool, value: nat)
      requires Valid()
      modifies this
      ensures Valid() && End() == old(End())
      ensures match ReadVarint64(old(Rest()))
              case Bad => !ok
              case Parsed(v, rest) => ok && value == v && Rest() == rest
    {
      value := 0;
      var group: nat, scale: nat := 0, 1;
      ghost var s := Rest();
      while true
        invariant Valid() && End() == old(End()) && group <= 10
        invariant Shifted(Groups(s, 10), 0, 1, TWO64) == Shifted(Groups(Rest(), 10 - group), value, scale, TWO64)
        decreases 10 - group
      {
        if group == 10 {
          return false, 0;
        }
        ghost var before := Rest();
        var b: byte;
        ok, b := ReadByte();
        if !ok {
          return false, 0;
        }
        ShiftGroup(before, 10 - group, value, scale, TWO64);
        value := (value + b as nat % 128 * scale) % TWO64;
        if b < 128 {
          return true, value;
        }
        group, scale := group + 1, scale * 128;
      }
    }

    // ----- skipping -----

    method SkipVarintBytes() returns (ok: bool)
      requires Valid()
      modifies this
      ensures Valid() && End() == old(End())
      ensures ok <==> SkipVarint(old(Rest())).Some?
      ensures ok ==> Rest() == SkipVarint(old(Rest())).value
    {
      while true
        invariant Valid() && End() == old(End())
        invariant SkipVarint(old(Rest())) == SkipVarint(Rest())
        decreases bytesLeft
      {
        var b: byte;
        ok, b := ReadByte();
        if !ok || b < 128 {
          return;
        }
      }
    }

    method SkipBytes(count: nat) returns (ok: bool)
      requires Valid()
      modifies this
      ensures Valid() && End() == old(End())
      ensures ok <==> Drop(count, old(Rest())).Some?
      ensures ok ==> Rest() == Drop(count, old(Rest())).value
    {
      var skipped: Bytes;
      ok, skipped := Read(count);
    }

    method SkipString() returns (ok: bool)
      requires Valid()
      modifies this
      ensures Valid() && End() == old(End())
      ensures ok <==> ReadPrefixed(old(Rest())).Parsed?
      ensures ok ==> Rest() == ReadPrefixed(old(Rest())).rest
    {
      var len: nat, eof: bool;
      ok, len, eof := DecodeVarint32();
      if ok {
        ok := SkipBytes(len);
      }
    }

    method Skip(wireType: nat) returns (ok: bool)
      requires Valid()
      modifies this
      ensures Valid() && End() == old(End())
      ensures ok <==> SkipField(wireType, old(Rest())).Some?
      ensures ok ==> Rest() == SkipField(wireType, old(Rest())).value
    {
      if wireType == WT_VARINT {
        ok := SkipVarintBytes();
      } else if wireType == WT_64BIT {
        ok := SkipBytes(8);
      } else if wireType == WT_STRING {
        ok := SkipString();
      } else if wireType == WT_32BIT {
        ok := SkipBytes(4);
      } else {
        ok := false;
      }
    }

    /** A zero, like the end of the stream, is reported as the end of the message. */
    method DecodeTag() returns (ok: bool, wireType: nat, tag: nat, eof: bool)
      requires Valid()
      modifies this
      ensures Valid() && End() == old(End())
      ensures old(Rest()) != [] ==>
                match ReadTag(old(Rest()))
                case NoTag => !ok && !eof
                case End => !ok && eof
                case TagRead(t, wt, rest) => ok && tag == t && wireType == wt && Rest() == rest
    {
      var temp: nat;
      wireType, tag := 0, 0;
      ok, temp, eof := DecodeVarint32();
      if !ok {
        return;
      }
      if temp == 0 {
        return false, 0, 0, true;
      }
      tag, wireType := temp / 8, temp % 8;
    }

    // ----- substreams -----

    /** A stream over the run of bytes that comes next, taken off the bytes that this one has left. */
    method MakeStringSubstream() returns (ok: bool, sub: IStream)
      requires Valid()
      modifies this
      ensures Valid() && fresh(sub) && sub.Valid() && sub.data == data
      ensures match ReadPrefixed(old(Rest()))
              case Bad => !ok && End() == old(End())
              case Parsed(run, rest) =>
                ok && sub.Rest() == run && sub.End() + bytesLeft == old(End())
                && data[sub.End()..sub.End() + bytesLeft] == rest
    {
      var size: nat, eof: bool;
      ok, size, eof := DecodeVarint32();
      sub := new IStream(data, pos, 0);
      if !ok {
        return;
      }
      if bytesLeft < size {
        ok := false;
        return;
      }
      sub := new IStream(data, pos, size);
      bytesLeft := bytesLeft - size;
    }

    /** Whatever the substream has left is passed over. */
    method CloseStringSubstream(sub: IStream) returns (ok: bool)
      requires Valid() && sub.Valid() && sub != this && sub.data == data && sub.End() + bytesLeft <= |data|
      modifies this, sub
      ensures ok && Valid() && pos == old(sub.End()) && bytesLeft == old(bytesLeft)
    {
      ok := true;
      if sub.bytesLeft > 0 {
        ok := sub.SkipBytes(sub.bytesLeft);
      }
      pos := sub.pos;
    }
  }

  // ----- the groups of an integer, as the 32-bit decoder adds them up -----

  /** The group b put in place above n others, which it does not overlap. */
  function Plus(value: nat, n: nat, b: byte): nat {
    value + b as nat % 128 * Pow(128, n)
  }

  function Sum(read: Bytes): nat {
    if read == [] then 0 else Plus(Sum(read[..|read| - 1]), |read| - 1, read[|read| - 1])
  }

  predicate AllMore(read: Bytes) {
    forall k :: 0 <= k < |read| ==> read[k] >= 128
  }

  /** Some groups have been read, all but the last of them with a continuation bit. */
  predicate ReadSoFar(s: Bytes, read: Bytes, rest: Bytes, value: nat) {
    && s == read + rest && 1 <= |read| <= 5 && value == Sum(read) && AllMore(read[..|read| - 1])
  }

  lemma {:induction false} FirstRead(s: Bytes)
    requires s != []
    ensures ReadSoFar(s, [s[0]], s[1..], s[0] as nat % 128)
  {
    SumAppend([], s[0]);
    assert [] + [s[0]] == [s[0]];
  }

  lemma {:induction false} NextRead(s: Bytes, read: Bytes, rest: Bytes, value: nat)
    requires ReadSoFar(s, read, rest, value) && read[|read| - 1] >= 128
    ensures |read| == 5 ==> ReadVarint32(s) == ReadPadding(rest, value % TWO32, 35)
    ensures |read| < 5 && rest == [] ==> ReadVarint32(s) == Bad
    ensures |read| < 5 && rest != [] ==>
              ReadSoFar(s, read + [rest[0]], rest[1..], Plus(value, |read|, rest[0]))
  {
    assert read == read[..|read| - 1] + [read[|read| - 1]];
    assert AllMore(read);
    MoreGroups(read, rest);
    if |read| == 5 {
      assert s[..5] == read && s[5..] == rest;
      SumBothWays(read);
    } else if rest != [] {
      SumAppend(read, rest[0]);
      assert read + [rest[0]] + rest[1..] == s;
    }
  }

  lemma {:induction false} LastRead(s: Bytes, read: Bytes, rest: Bytes, value: nat)
    requires ReadSoFar(s, read, rest, value) && read[|read| - 1] < 128
    ensures ReadVarint32(s) ==
            if |read| == 5 && read[|read| - 1] / 16 % 8 != 0 then Bad else Parsed(value, rest)
  {
    LastGroup(read, rest);
  }

  lemma {:induction false} SumAppend(read: Bytes, b: byte)
    ensures Sum(read + [b]) == Plus(Sum(read), |read|, b)
  {
    assert (read + [b])[..|read|] == read;
  }

  /** The first group is the lowest. */
  lemma {:induction false} SumFirst(read: Bytes)
    requires read != []
    ensures Sum(read) == read[0] as nat % 128 + 128 * Sum(read[1..])
  {
    var n := |read| - 1;
    if n == 0 {
      assert Sum(read[1..]) == 0 && Sum(read[..0]) == 0;
    } else {
      var b := read[n] as nat % 128;
      SumFirst(read[..n]);
      assert read[..n][1..] == read[1..][..n - 1];
      assert b * Pow(128, n) == 128 * (b * Pow(128, n - 1));
    }
  }

  lemma {:induction false} MoreGroups(read: Bytes, rest: Bytes)
    requires AllMore(read)
    ensures |read| == 5 || rest == [] ==> Groups(read + rest, 5) == Bad
  {
    if |read| == 5 || rest == [] {
      NoLastGroup(read, rest, 5);
    }
  }

  lemma {:induction false} NoLastGroup(read: Bytes, rest: Bytes, max: nat)
    requires AllMore(read) && (|read| == max || rest == [])
    ensures Groups(read + rest, max) == Bad
  {
    if read != [] && max > 0 {
      NoLastGroup(read[1..], rest, max - 1);
      assert (read + rest)[1..] == read[1..] + rest;
    }
  }

  lemma {:induction false} SumBothWays(read: Bytes)
    ensures Sum(read) == SumUp(read)
  {
    if read != [] {
      SumFirst(read);
      SumBothWays(read[1..]);
    }
  }

  lemma {:induction false} GroupsSum(more: Bytes, last: byte, rest: Bytes, max: nat)
    requires |more| < max && AllMore(more) && last < 128
    ensures Groups(more + [last] + rest, max) == Parsed(SumUp(more + [last]), rest)
  {
    var read := more + [last];
    if more == [] {
      assert (read + rest)[1..] == rest && SumUp(read[1..]) == 0;
    } else {
      GroupsSum(more[1..], last, rest, max - 1);
      assert read[1..] == more[1..] + [last] && (read + rest)[1..] == more[1..] + [last] + rest;
    }
  }

  lemma {:induction false} SumBelow(read: Bytes)
    ensures Sum(read) < Pow(128, |read|)
  {
    if read != [] {
      var n := |read| - 1;
      SumBelow(read[..n]);
      PlusBelow(Sum(read[..n]), read[n] as nat % 128, Pow(128, n));
    }
  }

  lemma {:induction false} PlusBelow(low: nat, b: nat, place: nat)
    requires low < place && b < 128
    ensures low + b * place < 128 * place
  {
    assert b * place <= 127 * place;
  }

  lemma {:induction false} LastGroup(read: Bytes, rest: Bytes)
    requires 0 < |read| <= 5 && AllMore(read[..|read| - 1]) && read[|read| - 1] < 128
    ensures ReadVarint32(read + rest) ==
            if |read| == 5 && read[4] / 16 % 8 != 0 then Bad else Parsed(Sum(read), rest)
  {
    assert read == read[..|read| - 1] + [read[|read| - 1]];
    GroupsSum(read[..|read| - 1], read[|read| - 1], rest, 5);
    SumBothWays(read);
    FourGroups(|read|);
    if |read| == 5 {
      SumBelow(read[..4]);
      TopBits(Sum(read[..4]), read[4] as nat);
    } else {
      SumBelow(read);
    }
  }

  lemma {:induction false} FourGroups(n: nat)
    ensures n <= 4 ==> Pow(128, n) <= 0x1000_0000
    ensures Pow(128, 4) == 0x1000_0000
  {
    assert Pow(128, 0) == 1 && Pow(128, 1) == 128 && Pow(128, 2) == 0x4000 && Pow(128, 3) == 0x20_0000;
  }

  lemma {:induction false} TopBits(low: nat, b: nat)
    requires low < 0x1000_0000 && b < 128
    ensures low + b * 0x1000_0000 < TWO32 <==> b / 16 % 8 == 0
  {}
}
