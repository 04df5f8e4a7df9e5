/**
  What the decoder takes from bytes that may be anything (pb_decode.c): where a number ends and which one it is,
  where a skipped value ends, and that nothing is taken from bytes that are cut short.
 */
module WireBytes {
  import opened Wrappers
  import opened Coding
  import opened Proto
  import opened ProtoWire
  import opened ProtoScalars
  import opened ProtoRoundTrip
  import opened ProtoMerge
  import WireMeaning

  // ----- where a number ends -----

  /** The first `n` bytes are one number: only the last of them has its high bit clear. */
  predicate Ends(s: Bytes, n: nat) {
    0 < n <= |s| && s[n - 1] < 128 && forall i :: 0 <= i < n - 1 ==> s[i] >= 128
  }

  /** The groups of a number are its base-128 digits, lowest first. */
  lemma {:induction false} GroupDigit(s: Bytes, i: nat)
    requires i < |s|
    ensures Pow(128, i) > 0 && SumUp(s) / Pow(128, i) % 128 == s[i] as nat % 128
  {
    WireMeaning.PowPositive(128, i);
    if i > 0 {
      GroupDigit(s[1..], i - 1);
      WireMeaning.PowPositive(128, i - 1);
      WireMeaning.DivideTwice(SumUp(s), 128, Pow(128, i - 1));
      FirstOff(s);
    }
  }

  lemma {:induction false} FirstOff(s: Bytes)
    requires s != []
    ensures SumUp(s) / 128 == SumUp(s[1..])
  {}

  lemma {:induction false} GroupsEnd(s: Bytes, n: nat, max: nat)
    requires Ends(s, n)
    ensures Groups(s, max) == if n <= max then Parsed(SumUp(s[..n]), s[n..]) else Bad
    decreases n
  {
    if n == 1 {
      assert s[..1] == [s[0]] && SumUp([]) == 0;
    } else if max > 0 {
      GroupsEnd(s[1..], n - 1, max - 1);
      assert s[1..][..n - 1] == s[..n][1..] && s[1..][n - 1..] == s[n..];
    }
  }

  lemma {:induction false} NeverEnds(s: Bytes, max: nat)
    requires forall n: nat :: !Ends(s, n)
    ensures Groups(s, max) == Bad && SkipVarint(s) == None
  {
    if s != [] {
      assert !Ends(s, 1);
      forall n: nat
        ensures !Ends(s[1..], n)
      {
        assert !Ends(s, n + 1);
      }
      NeverEnds(s[1..], if max > 0 then max - 1 else 0);
    }
  }

  lemma {:induction false} SkipEnds(s: Bytes, n: nat)
    requires Ends(s, n)
    ensures SkipVarint(s) == Some(s[n..])
    decreases n
  {
    if n > 1 {
      SkipEnds(s[1..], n - 1);
      assert s[1..][n - 1..] == s[n..];
    }
  }

  /** Any bytes as a 64-bit number: at most ten groups, and what is beyond 64 bits is lost. */
  lemma {:induction false} WideNumber(s: Bytes, n: nat)
    ensures Ends(s, n) ==> ReadVarint64(s) == if n <= 10 then Parsed(SumUp(s[..n]) % TWO64, s[n..]) else Bad
    ensures (forall m: nat :: !Ends(s, m)) ==> ReadVarint64(s) == Bad
  {
    if Ends(s, n) {
      GroupsEnd(s, n, 10);
    } else if forall m: nat :: !Ends(s, m) {
      NeverEnds(s, 10);
    }
  }

  /** Up to five groups are a 32-bit number if there is nothing above it; a number that never ends is none. */
  lemma {:induction false} NarrowNumber(s: Bytes, n: nat)
    requires n <= 5
    ensures Ends(s, n) ==> ReadVarint32(s) ==
                           if SumUp(s[..n]) < TWO32 then Parsed(SumUp(s[..n]), s[n..]) else Bad
    ensures Ends(s, n) && SumUp(s[..n]) >= TWO32 ==> n == 5
  {
    if Ends(s, n) {
      GroupsEnd(s, n, 5);
      if n <= 4 {
        FourGroups(s[..n]);
      }
    }
  }

  lemma {:induction false} FourGroups(s: Bytes)
    requires |s| <= 4
    ensures SumUp(s) < Pow(128, |s|) <= 0x1000_0000
    decreases |s|
  {
    if s != [] {
      SumBelow(s);
    }
    assert Pow(128, 0) == 1 && Pow(128, 1) == 128 && Pow(128, 2) == 0x4000 && Pow(128, 3) == 0x20_0000;
    assert Pow(128, 4) == 0x1000_0000;
  }

  lemma {:induction false} SumBelow(s: Bytes)
    ensures SumUp(s) < Pow(128, |s|)
  {
    if s != [] {
      SumBelow(s[1..]);
    }
  }

  // ----- padding -----

  /** A group beyond the fifth says nothing, or repeats the sign of a 64-bit number. */
  predicate Pads(low: nat, b: byte, i: nat) {
    b % 128 == 0 || (low >= 0x8000_0000 && b == if i < 9 then 0xFF else 0x01)
  }

  predicate AllPad(low: nat, s: Bytes, i: nat, n: nat)
    requires n <= |s|
  {
    forall j: nat :: j < n ==> Pads(low, s[j], i + j)
  }

  lemma {:induction false} PaddingEnds(s: Bytes, low: nat, i: nat, n: nat)
    requires low < TWO32 && 5 <= i && i + n <= 37 && Ends(s, n)
    ensures ReadPadding(s, low, 7 * i) == if AllPad(low, s, i, n) then Parsed(low, s[n..]) else Bad
    decreases n
  {
    assert AllPad(low, s, i, n) ==> Pads(low, s[0], i + 0);
    if Pads(low, s[0], i) {
      if n == 1 {
        LastGroup(s, low, 7 * i);
      } else {
        MoreGroups(s, low, 7 * i);
        PaddingEnds(s[1..], low, i + 1, n - 1);
        assert s[1..][n - 1..] == s[n..];
        PadsOn(low, s, i, n);
      }
    }
  }

  lemma {:induction false} LastGroup(s: Bytes, low: nat, bitpos: nat)
    requires s != [] && s[0] < 128 && low < TWO32 && 35 <= bitpos < 256 && PaddingOk(low, s[0], bitpos)
    ensures ReadPadding(s, low, bitpos) == Parsed(low, s[1..])
  {}

  lemma {:induction false} MoreGroups(s: Bytes, low: nat, bitpos: nat)
    requires s != [] && s[0] >= 128 && low < TWO32 && 35 <= bitpos < 249 && PaddingOk(low, s[0], bitpos)
    ensures ReadPadding(s, low, bitpos) == ReadPadding(s[1..], low, bitpos + 7)
  {
    assert (bitpos + 7) % 256 == bitpos + 7;
  }

  lemma {:induction false} PadsOn(low: nat, s: Bytes, i: nat, n: nat)
    requires 0 < n <= |s| && Pads(low, s[0], i)
    ensures AllPad(low, s, i, n) <==> AllPad(low, s[1..], i + 1, n - 1)
  {
    if AllPad(low, s[1..], i + 1, n - 1) {
      forall j: nat | j < n
        ensures Pads(low, s[j], i + j)
      {
        if j > 0 {
          assert Pads(low, s[1..][j - 1], i + 1 + (j - 1));
        }
      }
    }
    if AllPad(low, s, i, n) {
      forall j: nat | j < n - 1
        ensures Pads(low, s[1..][j], i + 1 + j)
      {
        assert Pads(low, s[j + 1], i + (j + 1));
      }
    }
  }

  lemma {:induction false} EndsBehind(s: Bytes, k: nat, n: nat)
    requires Ends(s, n) && k < n
    ensures Ends(s[k..], n - k)
  {}

  /**
    More than five groups are a 32-bit number if all but the first five are padding. Up to 37 groups: then the
    bit position, which is counted in a byte, comes round.
   */
  lemma {:induction false} PaddedNumber(s: Bytes, n: nat)
    requires 5 < n <= 37 && Ends(s, n)
    ensures var low := SumUp(s[..5]) % TWO32;
            ReadVarint32(s) == if AllPad(low, s[5..], 5, n - 5) then Parsed(low, s[n..]) else Bad
  {
    var low := SumUp(s[..5]) % TWO32;
    GroupsEnd(s, n, 5);
    EndsBehind(s, 5, n);
    PaddingEnds(s[5..], low, 5, n - 5);
    assert s[5..][n - 5..] == s[n..];
  }

  /** Bytes that all go on are no number of either width. */
  lemma {:induction false} EndlessIsBad(s: Bytes)
    requires forall i :: 0 <= i < |s| ==> s[i] >= 128
    ensures ReadVarint32(s) == Bad && ReadVarint64(s) == Bad && SkipVarint(s) == None
  {
    NeverEnds(s, 5);
    NeverEnds(s, 10);
    if |s| >= 5 {
      GoesOnForever(s[5..], SumUp(s[..5]) % TWO32, 35);
    }
  }

  // ----- what is passed over -----

  /** A run with its length in front lies wholly in the bytes. */
  lemma {:induction false} PrefixedIff(s: Bytes, run: Bytes, rest: Bytes)
    ensures ReadPrefixed(s) == Parsed(run, rest) <==> ReadVarint32(s) == Parsed(|run|, run + rest)
  {
    match ReadVarint32(s)
    case Bad =>
    case Parsed(len, t) =>
      if len <= |t| {
        assert t == t[..len] + t[len..];
      }
      if len == |run| && t == run + rest {
        assert t[..len] == run && t[len..] == rest;
      }
  }

  /** One value of a wire type in front of `rest`. */
  ghost predicate Passes(wt: nat, s: Bytes, rest: Bytes) {
    if wt == 0 then exists n: nat :: Ends(s, n) && rest == s[n..]
    else if wt == 1 then |s| >= 8 && rest == s[8..]
    else if wt == 2 then exists run :: ReadVarint32(s) == Parsed(|run|, run + rest)
    else if wt == 5 then |s| >= 4 && rest == s[4..]
    else false
  }

  /** A field that is not known is passed over exactly if it is one whole value of its wire type. */
  lemma {:induction false} SkipIff(wt: nat, s: Bytes, rest: Bytes)
    ensures SkipField(wt, s) == Some(rest) <==> Passes(wt, s, rest)
  {
    if wt == 0 {
      if n: nat :| Ends(s, n) {
        SkipEnds(s, n);
        OneEnd(s, n);
      } else {
        NeverEnds(s, 0);
      }
    } else if wt == 2 {
      match ReadPrefixed(s)
      case Bad =>
        forall run
          ensures ReadVarint32(s) != Parsed(|run|, run + rest)
        {
          PrefixedIff(s, run, rest);
        }
      case Parsed(run, t) =>
        PrefixedIff(s, run, t);
        forall other | ReadVarint32(s) == Parsed(|other|, other + rest)
          ensures rest == t
        {
          PrefixedIff(s, other, rest);
        }
    }
  }

  lemma {:induction false} OneEnd(s: Bytes, n: nat)
    requires Ends(s, n)
    ensures forall m: nat :: Ends(s, m) ==> m == n
  {}

  // ----- messages -----

  /** A zero tag ends a message, whatever follows. */
  lemma {:induction false} ZeroTagEnds(r: Desc, d: Desc, slots: seq<Slot>, b: Bytes, rest: Bytes, was: seq<Slot>)
    requires DescOk(d) && DescOk(r) && Agree(r, d) && Fits(d, slots) && ShapeAll(r, was)
    requires EncodeFields(d, slots, 0) == Some(b) && |b| < TWO32
    ensures DecodeNoinit(r, b + ([0] + rest), was) == DecodeNoinit(r, b, was)
  {
    var done := FieldsOnto(r, d, slots, 0, b, [], was, {});
    var ended := FieldsOnto(r, d, slots, 0, b, [0] + rest, was, {});
    assert b + [] == b;
    var now := MergeFields(r, d, slots, 0, was);
    if now.Some? {
      LoopEnds(r, rest, now.value, ended);
      SeenSupplied(r, d, done);
      SeenSupplied(r, d, ended);
    }
  }

  lemma {:induction false} LoopEnds(r: Desc, rest: Bytes, slots: seq<Slot>, seen: set<nat>)
    requires |slots| == |r.fields|
    ensures DecodeLoop(r, [0] + rest, slots, seen) == DecodeLoop(r, [], slots, seen) == Some(Decoded(slots, seen))
  {
    NarrowNumber([0] + rest, 1);
    assert ([0] + rest)[..1] == [0] && SumUp([]) == 0;
  }

  /** Only an array looks at the wire type that came with its tag, and only to tell a packed run from an element. */
  lemma {:induction false} WireTypeIsIgnored(f: Field, a: nat, b: nat, s: Bytes, was: Slot)
    requires was.Many? && Packable(f.kind) ==> (a == WT_STRING <==> b == WT_STRING)
    ensures DecodeSlot(f, a, s, was) == DecodeSlot(f, b, s, was)
  {}

  /** Bytes that are cut short in the middle of a value are not taken for one. */
  lemma {:induction false} CutScalarIsBad(k: Kind, v: Value, b: Bytes, n: nat)
    requires EncodeScalar(k, v) == Some(b) && |b| < TWO32 && n < |b|
    ensures DecodeScalar(k, b[..n]) == Bad
  {
    match k
    case Bool => CutNumber(if v.b then 1 else 0, n);
    case Int(_) => CutNumber(Twos(v.n), n);
    case UInt(_) => CutNumber(v.n, n);
    case SInt(_) => CutNumber(ZigZag(v.n), n);
    case Fixed32 =>
    case Fixed64 =>
    case ByteArray(_) => CutRun(v.bytes, n);
    case Text(_) => CutRun(v.bytes, n);
    case FixedLength(_) => CutRun(v.bytes, n);
    case Submessage(_) =>
  }

  lemma {:induction false} CutNumber(v: nat, n: nat)
    requires n < |Varint(v)|
    ensures ReadVarint64(Varint(v)[..n]) == Bad && ReadVarint32(Varint(v)[..n]) == Bad
  {
    CutVarintIsBad(v, n, 10);
    CutVarintIsBad(v, n, 5);
    CutGoesOn(v, n);
    if n >= 5 {
      GoesOnForever(Varint(v)[..n][5..], SumUp(Varint(v)[..n][..5]) % TWO32, 35);
    }
  }

  lemma {:induction false} CutGoesOn(v: nat, n: nat)
    requires n < |Varint(v)|
    ensures forall i :: 0 <= i < n ==> Varint(v)[i] >= 128
  {
    if v >= 128 && n > 0 {
      CutGoesOn(v / 128, n - 1);
    }
  }

  lemma {:induction false} GoesOnForever(s: Bytes, v: nat, bitpos: nat)
    requires v < TWO32 && bitpos < 256 && forall i :: 0 <= i < |s| ==> s[i] >= 128
    ensures ReadPadding(s, v, bitpos) == Bad
  {
    if s != [] && (bitpos >= 32 ==> PaddingOk(v, s[0], bitpos)) {
      GoesOnForever(s[1..], if bitpos >= 32 then v else Joined(v, s[0], bitpos), (bitpos + 7) % 256);
    }
  }

  lemma {:induction false} CutRun(run: Bytes, n: nat)
    requires |run| < TWO32 && n < |Prefixed(run)|
    ensures ReadPrefixed(Prefixed(run)[..n]) == Bad
  {
    var s := Prefixed(run)[..n];
    var head := Varint(|run|);
    if n < |head| {
      CutNumber(|run|, n);
      assert s == head[..n];
    } else {
      assert s == head + run[..n - |head|];
      ReadVarint32Back(|run|, run[..n - |head|]);
    }
  }

  lemma {:induction false} CutFieldFails(r: Desc, j: nat, v: Value, vb: Bytes, n: nat, was: seq<Slot>, seen: set<nat>)
    requires DescOk(r) && j < |r.fields| == |was| && !was[j].Many? && !r.fields[j].kind.Submessage?
    requires EncodeScalar(r.fields[j].kind, v) == Some(vb) && |vb| < TWO32 && 0 < n < |FieldTag(r.fields[j]) + vb|
    ensures DecodeLoop(r, (FieldTag(r.fields[j]) + vb)[..n], was, seen) == None
  {
    var f := r.fields[j];
    var m := n - |FieldTag(f)|;
    if m < 0 {
      assert (FieldTag(f) + vb)[..n] == FieldTag(f)[..n];
      CutTagFails(r, f, n, was, seen);
    } else {
      assert (FieldTag(f) + vb)[..n] == FieldTag(f) + vb[..m];
      CutSlotIsBad(f, v, vb, m, was[j]);
      LoopKnown(r, j, WireType(f.kind), vb[..m], was, seen);
    }
  }

  lemma {:induction false} CutTagFails(r: Desc, f: Field, n: nat, was: seq<Slot>, seen: set<nat>)
    requires |r.fields| == |was| && 0 < n < |FieldTag(f)|
    ensures DecodeLoop(r, FieldTag(f)[..n], was, seen) == None
  {
    CutNumber(f.tag * 8 + WireType(f.kind), n);
  }

  lemma {:induction false} CutSlotIsBad(f: Field, v: Value, vb: Bytes, n: nat, was: Slot)
    requires !was.Many? && !f.kind.Submessage?
    requires EncodeScalar(f.kind, v) == Some(vb) && |vb| < TWO32 && n < |vb|
    ensures DecodeSlot(f, WireType(f.kind), vb[..n], was) == Bad
  {
    CutScalarIsBad(f.kind, v, vb, n);
  }

  lemma {:induction false} NotArray(r: Desc, slots: seq<Slot>, j: nat)
    requires ShapeAll(r, slots) && j < |slots| && !r.fields[j].rule.Repeated?
    ensures !slots[j].Many?
  {
    assert ShapeSlot(r.fields[j], slots[j]);
  }

  /** A message that ends in the middle of a field is an error, whatever came before. */
  lemma {:induction false} CutMessageFails(r: Desc, d: Desc, slots: seq<Slot>, b: Bytes, was: seq<Slot>, j: nat,
                                           v: Value, vb: Bytes, n: nat)
    requires DescOk(d) && DescOk(r) && Agree(r, d) && Fits(d, slots) && ShapeAll(r, was)
    requires EncodeFields(d, slots, 0) == Some(b) && |b| < TWO32
    requires j < |r.fields| && !r.fields[j].rule.Repeated? && !r.fields[j].kind.Submessage?
    requires EncodeScalar(r.fields[j].kind, v) == Some(vb) && |vb| < TWO32 && 0 < n < |FieldTag(r.fields[j]) + vb|
    ensures DecodeNoinit(r, b + (FieldTag(r.fields[j]) + vb)[..n], was) == None
  {
    var cut := (FieldTag(r.fields[j]) + vb)[..n];
    var done := FieldsOnto(r, d, slots, 0, b, cut, was, {});
    var now := MergeFields(r, d, slots, 0, was);
    if now.Some? {
      MergedAll(r, d, slots, 0, was);
      NotArray(r, now.value, j);
      CutFieldFails(r, j, v, vb, n, now.value, done);
    }
  }
}
