/**
  The encoder (pb_encode.c): streams that write or only count, and the functions that walk a message and
  write it, each shown to put exactly the bytes of the wire format on the stream, or to fail exactly when
  they do not fit.
 */
module PbEncode {
  import opened Wrappers
  import opened Coding
  import opened PbCommon
  import opened Proto
  import opened ProtoWire

  // ----- streams -----

  /** The state of a stream, `out` being what its callback was given so far. */
  datatype Sink = Sink(sizing: bool, maxSize: nat, written: nat, out: Bytes)

  /** The state after writing some bytes, if they fit; a stream that only counts takes everything. */
  function Push(s: Sink, e: Option<Bytes>): Option<Sink> {
    if e.None? || (e.value != [] && !s.sizing && s.written + |e.value| > s.maxSize) then
      None
    else
      Some(s.(written := s.written + |e.value|, out := if s.sizing then s.out else s.out + e.value))
  }

  predicate Done(before: Sink, e: Option<Bytes>, ok: bool, after: Sink) {
    match Push(before, e)
    case None => !ok
    case Some(s) => ok && after == s
  }

  /** Writing piece by piece succeeds exactly if the whole fits. */
  lemma {:induction false} PushJoin(s: Sink, a: Option<Bytes>, b: Option<Bytes>)
    ensures Push(s, Join(a, b)) == match Push(s, a) case None => None case Some(s1) => Push(s1, b)
  {
    if a.Some? && b.Some? {
      assert s.out + (a.value + b.value) == s.out + a.value + b.value;
    }
  }

  lemma {:induction false} PushNothing(s: Sink)
    ensures Push(s, Some([])) == Some(s)
  {
    assert s.out + [] == s.out;
  }

  class OStream {
    const sizing: bool
    const maxSize: nat
    var bytesWritten: nat
    var out: Bytes

    constructor (sizing: bool, maxSize: nat, out: Bytes)
      ensures State() == Sink(sizing, maxSize, 0, out)
    {
      this.sizing, this.maxSize, this.bytesWritten, this.out := sizing, maxSize, 0, out;
    }

    ghost function State(): Sink
      reads this
    {
      Sink(sizing, maxSize, bytesWritten, out)
    }

    method Write(buf: Bytes) returns (ok: bool)
      modifies this
      ensures Done(old(State()), Some(buf), ok, State())
    {
      if |buf| > 0 && !sizing {
        if bytesWritten + |buf| > maxSize {
          return false;
        }
        out := out + buf;
      }
      assert buf == [] ==> out + buf == out;
      bytesWritten := bytesWritten + |buf|;
      ok := true;
    }

    /** A write without data, which only a counting stream is given. */
    method Count(size: nat) returns (ok: bool)
      requires sizing
      modifies this
      ensures ok && State() == old(State()).(written := old(bytesWritten) + size)
    {
      bytesWritten := bytesWritten + size;
      ok := true;
    }
  }

  // ----- helper functions -----

  method EncodeVarint(stream: OStream, value: nat) returns (ok: bool)
    modifies stream
    ensures Done(old(stream.State()), Some(Varint(value)), ok, stream.State())
  {
    if value <= 0x7F {
      assert Varint(value) == [value as byte];
      ok := stream.Write([value as byte]);
      return;
    }
    var buffer: Bytes, v := [], value;
    while v != 0
      invariant stream.State() == old(stream.State())
      invariant v != 0 ==> buffer + Varint(v) == Varint(value)
      invariant v == 0 ==> buffer != [] && buffer[|buffer| - 1] >= 128
                           && buffer[..|buffer| - 1] + [buffer[|buffer| - 1] - 128] == Varint(value)
    {
      LastOrMore(buffer, v);
      buffer := buffer + [(v % 128 + 128) as byte];
      v := v / 128;
    }
    buffer := buffer[|buffer| - 1 := buffer[|buffer| - 1] - 128];
    assert buffer == Varint(value);
    if value < TWO64 {
      TenBytes(value);
    }
    assert value < TWO64 ==> |buffer| <= 10;
    ok := stream.Write(buffer);
  }

  lemma {:induction false} LastOrMore(buffer: Bytes, v: nat)
    requires v > 0
    ensures var b := buffer + [(v % 128 + 128) as byte];
            if v < 128 then b[..|b| - 1] + [b[|b| - 1] - 128] == buffer + Varint(v)
            else b + Varint(v / 128) == buffer + Varint(v)
  {
    if v >= 128 {
      assert Varint(v) == [(v % 128 + 128) as byte] + Varint(v / 128);
    }
  }

  /** Shifting the sign into the lowest bit: a negative number is doubled in 64 bits and complemented. */
  method EncodeSVarint(stream: OStream, value: int) returns (ok: bool)
    requires Signed(8, value)
    modifies stream
    ensures Done(old(stream.State()), Some(Varint(ZigZag(value))), ok, stream.State())
  {
    var zigzagged: nat;
    if value < 0 {
      zigzagged := TWO64 - 1 - (value + TWO64) * 2 % TWO64;
    } else {
      zigzagged := value * 2 % TWO64;
    }
    assert zigzagged == ZigZag(value);
    ok := EncodeVarint(stream, zigzagged);
  }

  method EncodeFixed(stream: OStream, width: nat, value: nat) returns (ok: bool)
    modifies stream
    ensures Done(old(stream.State()), Some(Fixed(width, value)), ok, stream.State())
  {
    var bytes: Bytes, v := [], value;
    for i := 0 to width
      invariant bytes + Fixed(width - i, v) == Fixed(width, value)
    {
      assert Fixed(width - i, v) == [(v % 256) as byte] + Fixed(width - i - 1, v / 256);
      bytes, v := bytes + [(v % 256) as byte], v / 256;
    }
    assert bytes == Fixed(width, value);
    ok := stream.Write(bytes);
  }

  method EncodeTag(stream: OStream, wireType: nat, fieldNumber: nat) returns (ok: bool)
    modifies stream
    ensures Done(old(stream.State()), Some(Tag(wireType, fieldNumber)), ok, stream.State())
  {
    ok := EncodeVarint(stream, fieldNumber * 8 + wireType);
  }

  method EncodeTagForField(stream: OStream, f: Field) returns (ok: bool)
    modifies stream
    ensures Done(old(stream.State()), Some(FieldTag(f)), ok, stream.State())
  {
    ok := EncodeTag(stream, WireType(f.kind), f.tag);
  }

  method EncodeString(stream: OStream, buffer: Bytes) returns (ok: bool)
    modifies stream
    ensures Done(old(stream.State()), Some(Prefixed(buffer)), ok, stream.State())
  {
    PushJoin(stream.State(), Some(Varint(|buffer|)), Some(buffer));
    ok := EncodeVarint(stream, |buffer|);
    if ok {
      ok := stream.Write(buffer);
    }
  }

  /** The array that holds a text: its characters, and zeros behind them. */
  function CharAt(text: Bytes, i: nat): byte {
    if i < |text| then text[i] else 0
  }

  /** Up to the terminator, or to the end of the array when there is none. */
  method TextLength(text: Bytes, max: nat) returns (size: nat)
    requires 0 !in text && |text| <= max
    ensures size == |text|
  {
    size := 0;
    while size < max && CharAt(text, size) != 0
      invariant size <= |text|
    {
      size := size + 1;
    }
  }

  // ----- fields of single values -----

  method EncodeBasic(stream: OStream, k: Kind, v: Value) returns (ok: bool)
    requires !k.Submessage? && KindOk(k) && Holds(k, v)
    modifies stream
    ensures Done(old(stream.State()), EncodeScalar(k, v), ok, stream.State())
  {
    match k
    case Bool =>
      ok := EncodeVarint(stream, if v.b then 1 else 0);
    case Int(_) =>
      ok := EncodeVarint(stream, if v.n < 0 then v.n + TWO64 else v.n);
    case UInt(_) =>
      ok := EncodeVarint(stream, v.n);
    case SInt(_) =>
      ok := EncodeSVarint(stream, v.n);
    case Fixed32 =>
      ok := EncodeFixed(stream, 4, v.n);
    case Fixed64 =>
      ok := EncodeFixed(stream, 8, v.n);
    case ByteArray(max) =>
      if |v.bytes| > max {
        return false;
      }
      ok := EncodeString(stream, v.bytes);
    case Text(max) =>
      var size := TextLength(v.bytes, max);
      assert v.bytes[..size] == v.bytes;
      ok := EncodeString(stream, v.bytes[..size]);
    case FixedLength(_) =>
      ok := EncodeString(stream, v.bytes);
  }

  // ----- arrays -----

  predicate AllHold(k: Kind, vs: seq<Value>) {
    forall j :: 0 <= j < |vs| ==> Holds(k, vs[j])
  }

  lemma {:induction false} PackedSome(k: Kind, vs: seq<Value>)
    requires Packable(k) && KindOk(k) && AllHold(k, vs)
    ensures EncodePacked(k, vs).Some?
    ensures k.Fixed32? ==> |EncodePacked(k, vs).value| == 4 * |vs|
    ensures k.Fixed64? ==> |EncodePacked(k, vs).value| == 8 * |vs|
  {
    if vs != [] {
      PackedSome(k, vs[1..]);
    }
  }

  /** The elements one after the other. */
  method WriteElements(stream: OStream, k: Kind, vs: seq<Value>) returns (ok: bool)
    requires Packable(k) && KindOk(k) && AllHold(k, vs)
    modifies stream
    ensures Done(old(stream.State()), EncodePacked(k, vs), ok, stream.State())
  {
    assert vs[0..] == vs;
    for i := 0 to |vs|
      invariant Push(old(stream.State()), EncodePacked(k, vs)) == Push(stream.State(), EncodePacked(k, vs[i..]))
    {
      PushJoin(stream.State(), EncodeScalar(k, vs[i]), EncodePacked(k, vs[i..][1..]));
      assert vs[i..][1..] == vs[i + 1..];
      ok := EncodeBasic(stream, k, vs[i]);
      if !ok {
        return;
      }
    }
    PushNothing(stream.State());
    ok := true;
  }

  /** The size of a packed array: known for fixed widths, and otherwise found by a pass that only counts. */
  method PackedSize(k: Kind, vs: seq<Value>) returns (ok: bool, size: nat)
    requires Packable(k) && KindOk(k) && AllHold(k, vs)
    ensures ok && EncodePacked(k, vs).Some? && size == |EncodePacked(k, vs).value|
  {
    PackedSome(k, vs);
    if k.Fixed32? {
      return true, 4 * |vs|;
    }
    if k.Fixed64? {
      return true, 8 * |vs|;
    }
    var sizestream := new OStream(true, 0, []);
    ok := WriteElements(sizestream, k, vs);
    size := sizestream.bytesWritten;
  }

  method EncodePackedArray(stream: OStream, f: Field, vs: seq<Value>) returns (ok: bool)
    requires Packable(f.kind) && KindOk(f.kind) && AllHold(f.kind, vs)
    modifies stream
    ensures Done(old(stream.State()), Join(Some(Tag(WT_STRING, f.tag)), Enclose(EncodePacked(f.kind, vs))), ok,
                 stream.State())
  {
    PushJoin(stream.State(), Some(Tag(WT_STRING, f.tag)), Enclose(EncodePacked(f.kind, vs)));
    ok := EncodeTag(stream, WT_STRING, f.tag);
    if !ok {
      return;
    }
    var _, size := PackedSize(f.kind, vs);
    ghost var run := EncodePacked(f.kind, vs);
    PushJoin(stream.State(), Some(Varint(size)), run);
    assert Join(Some(Varint(size)), run) == Enclose(run);
    ok := EncodeVarint(stream, size);
    if ok {
      if stream.sizing {
        ok := stream.Count(size);
      } else {
        ok := WriteElements(stream, f.kind, vs);
      }
    }
  }

  // ----- whole messages -----

  /** Whether a field without a has_ flag is zero; a submessage is when all of its fields are. */
  method CheckProto3Default(f: Field, s: Slot) returns (zero: bool)
    requires FitsSlot(f, s)
    ensures zero == IsDefault(f, s)
    decreases f, 0
  {
    match f.rule
    case Required =>
      zero := false;
    case Repeated(_) =>
      zero := |s.values| == 0;
    case Oneof(_) =>
      zero := s.choice.None?;
    case Optional =>
      zero := s.choice.None?;
    case Singular =>
      match f.kind
      case Submessage(d) =>
        assert Fits(d, s.value.slots);
        zero := CheckAllDefault(d, s.value.slots);
      case Bool =>
        zero := !s.value.b;
      case FixedLength(size) =>
        zero := size == 0;
      case ByteArray(_) =>
        zero := |s.value.bytes| == 0;
      case Text(_) =>
        zero := CharAt(s.value.bytes, 0) == 0;
      case _ =>
        zero := s.value.n == 0;
  }

  method CheckAllDefault(d: Desc, slots: seq<Slot>) returns (zero: bool)
    requires Fits(d, slots)
    ensures zero <==> forall i :: 0 <= i < |slots| ==> IsDefault(d.fields[i], slots[i])
    decreases d
  {
    var iter := new FieldIter(d);
    var any := iter.Begin();
    if !any {
      return true;
    }
    while true
      invariant fresh(iter) && iter.Valid() && iter.desc == d && iter.pos < |slots|
      invariant forall i :: 0 <= i < iter.pos ==> IsDefault(d.fields[i], slots[i])
      decreases |slots| - iter.pos
    {
      zero := CheckProto3Default(d.fields[iter.pos], slots[iter.pos]);
      if !zero {
        return false;
      }
      var more := iter.Next();
      if !more {
        return true;
      }
    }
  }

  method EncodeValueOf(stream: OStream, k: Kind, v: Value) returns (ok: bool)
    requires KindOk(k) && Holds(k, v)
    modifies stream
    ensures Done(old(stream.State()), EncodeValue(k, v), ok, stream.State())
    decreases k
  {
    if k.Submessage? {
      ok := EncodeSubmessage(stream, k.desc, v.slots);
    } else {
      ok := EncodeBasic(stream, k, v);
    }
  }

  method EncodeTaggedValue(stream: OStream, f: Field, v: Value) returns (ok: bool)
    requires KindOk(f.kind) && Holds(f.kind, v)
    modifies stream
    ensures Done(old(stream.State()), EncodeTagged(f, v), ok, stream.State())
    decreases f, 0
  {
    PushJoin(stream.State(), Some(FieldTag(f)), EncodeValue(f.kind, v));
    ok := EncodeTagForField(stream, f);
    if ok {
      ok := EncodeValueOf(stream, f.kind, v);
    }
  }

  method EncodeUnpackedArray(stream: OStream, f: Field, vs: seq<Value>) returns (ok: bool)
    requires KindOk(f.kind) && AllHold(f.kind, vs)
    modifies stream
    ensures Done(old(stream.State()), EncodeUnpacked(f, vs), ok, stream.State())
    decreases f, 1
  {
    assert vs[0..] == vs;
    for i := 0 to |vs|
      invariant Push(old(stream.State()), EncodeUnpacked(f, vs)) == Push(stream.State(), EncodeUnpacked(f, vs[i..]))
    {
      PushJoin(stream.State(), EncodeTagged(f, vs[i]), EncodeUnpacked(f, vs[i..][1..]));
      assert vs[i..][1..] == vs[i + 1..];
      ok := EncodeTaggedValue(stream, f, vs[i]);
      if !ok {
        return;
      }
    }
    PushNothing(stream.State());
    ok := true;
  }

  method EncodeArrayField(stream: OStream, f: Field, max: nat, vs: seq<Value>) returns (ok: bool)
    requires KindOk(f.kind) && AllHold(f.kind, vs)
    modifies stream
    ensures Done(old(stream.State()), EncodeArray(f, max, vs), ok, stream.State())
    decreases f, 2
  {
    PushNothing(stream.State());
    if |vs| == 0 {
      return true;
    }
    if |vs| > max {
      return false;
    }
    if Packable(f.kind) {
      ok := EncodePackedArray(stream, f, vs);
    } else {
      ok := EncodeUnpackedArray(stream, f, vs);
    }
  }

  method EncodeField(stream: OStream, f: Field, s: Slot) returns (ok: bool)
    requires KindOk(f.kind) && FitsSlot(f, s)
    modifies stream
    ensures Done(old(stream.State()), EncodeSlot(f, s), ok, stream.State())
    decreases f, 3
  {
    PushNothing(stream.State());
    match f.rule
    case Required =>
      ok := EncodeTaggedValue(stream, f, s.value);
    case Singular =>
      var zero := CheckProto3Default(f, s);
      if zero {
        return true;
      }
      ok := EncodeTaggedValue(stream, f, s.value);
    case Repeated(max) =>
      ok := EncodeArrayField(stream, f, max, s.values);
    case _ =>
      if s.choice.None? {
        return true;
      }
      ok := EncodeTaggedValue(stream, f, s.choice.value);
  }

  /** The fields in the order of the descriptor. */
  method EncodeMessage(stream: OStream, d: Desc, slots: seq<Slot>) returns (ok: bool)
    requires DescOk(d) && Fits(d, slots)
    modifies stream
    ensures Done(old(stream.State()), Encode(d, slots), ok, stream.State())
    decreases d, 0
  {
    var iter := new FieldIter(d);
    var any := iter.Begin();
    PushNothing(stream.State());
    if !any {
      return true;
    }
    while true
      invariant fresh(iter) && iter.Valid() && iter.desc == d && iter.pos < |slots|
      invariant Push(old(stream.State()), Encode(d, slots)) == Push(stream.State(), EncodeFields(d, slots, iter.pos))
      decreases |slots| - iter.pos
    {
      var i := iter.pos;
      PushJoin(stream.State(), EncodeSlot(d.fields[i], slots[i]), EncodeFields(d, slots, i + 1));
      ok := EncodeField(stream, d.fields[i], slots[i]);
      if !ok {
        return;
      }
      var more := iter.Next();
      if !more {
        PushNothing(stream.State());
        return;
      }
    }
  }

  /**
    The size first, from a pass that only counts, and then the bytes, on a substream that is given just
    that much room: the second pass never disagrees with the first.
   */
  method EncodeSubmessage(stream: OStream, d: Desc, slots: seq<Slot>) returns (ok: bool)
    requires DescOk(d) && Fits(d, slots)
    modifies stream
    ensures Done(old(stream.State()), Enclose(Encode(d, slots)), ok, stream.State())
    decreases d, 1
  {
    ghost var e := Encode(d, slots);
    var substream := new OStream(true, 0, []);
    ok := EncodeMessage(substream, d, slots);
    if !ok {
      return;
    }
    var size := substream.bytesWritten;
    assert Enclose(e) == Join(Some(Varint(size)), e);
    PushJoin(stream.State(), Some(Varint(size)), e);
    ok := EncodeVarint(stream, size);
    if !ok {
      return;
    }
    if stream.sizing {
      ok := stream.Count(size);
      return;
    }
    if stream.bytesWritten + size > stream.maxSize {
      return false;
    }
    substream := new OStream(false, size, stream.out);
    ok := EncodeMessage(substream, d, slots);
    stream.bytesWritten := stream.bytesWritten + substream.bytesWritten;
    stream.out := substream.out;
    if substream.bytesWritten != size {
      return false;
    }
  }

  /** What the counting pass reports is the length of what the writing pass writes. */
  method GetEncodedSize(d: Desc, slots: seq<Slot>) returns (ok: bool, size: nat)
    requires DescOk(d) && Fits(d, slots)
    ensures ok == Encode(d, slots).Some?
    ensures ok ==> size == |Encode(d, slots).value|
  {
    var stream := new OStream(true, 0, []);
    ok := EncodeMessage(stream, d, slots);
    size := stream.bytesWritten;
  }

  /** Into a buffer of a given size. */
  method EncodeToBuffer(d: Desc, slots: seq<Slot>, bufsize: nat) returns (r: Option<Bytes>)
    requires DescOk(d) && Fits(d, slots)
    ensures r == if Encode(d, slots).Some? && |Encode(d, slots).value| <= bufsize then Encode(d, slots) else None
  {
    var stream := new OStream(false, bufsize, []);
    var ok := EncodeMessage(stream, d, slots);
    assert forall s: Bytes :: [] + s == s;
    r := if ok then Some(stream.out) else None;
  }
}
