/**
  The wire format of messages (pb_encode.c, pb_decode.c): what the encoder writes for a value and what the
  decoder makes of a byte string, as functions.  PbEncode.dfy and PbDecode.dfy hold the stream code.
 */
module ProtoWire {
  import opened Wrappers
  import opened Coding
  import opened Proto

  // ----- encoding -----

  function Twos(n: int): (r: nat)
    requires 0 <= n + TWO64
  {
    if n < 0 then n + TWO64 else n
  }

  /** Signs are folded into the lowest bit, so that numbers of small magnitude stay short. */
  function ZigZag(n: int): (r: nat) {
    if n < 0 then -2 * n - 1 else 2 * n
  }

  function Prefixed(s: Bytes): Bytes {
    Varint(|s|) + s
  }

  function Tag(wt: nat, tag: nat): Bytes {
    Varint(tag * 8 + wt)
  }

  function FieldTag(f: Field): Bytes {
    Tag(WireType(f.kind), f.tag)
  }

  /** A value that fits in no struct of the described type, or overruns its array, is refused. */
  function EncodeScalar(k: Kind, v: Value): Option<Bytes> {
    match (k, v)
    case (Bool, Truth(b)) => Some(Varint(if b then 1 else 0))
    case (Int(size), Number(n)) => if WidthOk(size) && 0 <= n + TWO64 then Some(Varint(Twos(n))) else None
    case (UInt(size), Number(n)) => if WidthOk(size) && 0 <= n then Some(Varint(n)) else None
    case (SInt(size), Number(n)) => if WidthOk(size) then Some(Varint(ZigZag(n))) else None
    case (Fixed32, Number(n)) => if 0 <= n then Some(Fixed(4, n)) else None
    case (Fixed64, Number(n)) => if 0 <= n then Some(Fixed(8, n)) else None
    case (ByteArray(max), Raw(s)) => if |s| <= max then Some(Prefixed(s)) else None
    case (Text(max), Raw(s)) => Some(Prefixed(s))
    case (FixedLength(size), Raw(s)) => Some(Prefixed(s))
    case _ => None
  }

  function Join(a: Option<Bytes>, b: Option<Bytes>): Option<Bytes> {
    if a.Some? && b.Some? then Some(a.value + b.value) else None
  }

  function Enclose(a: Option<Bytes>): Option<Bytes> {
    if a.Some? then Some(Prefixed(a.value)) else None
  }

  function EncodeValue(k: Kind, v: Value): Option<Bytes>
    decreases k
  {
    if k.Submessage? then
      if v.Message? && |v.slots| == |k.desc.fields| then Enclose(EncodeFields(k.desc, v.slots, 0)) else None
    else
      EncodeScalar(k, v)
  }

  /** The contents of a packed array. */
  function EncodePacked(k: Kind, vs: seq<Value>): Option<Bytes> {
    if vs == [] then Some([]) else Join(EncodeScalar(k, vs[0]), EncodePacked(k, vs[1..]))
  }

  /** An array whose elements each carry the tag. */
  function EncodeUnpacked(f: Field, vs: seq<Value>): Option<Bytes>
    decreases f, 0, |vs|
  {
    if vs == [] then
      Some([])
    else
      Join(Join(Some(FieldTag(f)), EncodeValue(f.kind, vs[0])), EncodeUnpacked(f, vs[1..]))
  }

  function EncodeArray(f: Field, max: nat, vs: seq<Value>): Option<Bytes>
    decreases f, 1
  {
    if vs == [] then Some([])
    else if |vs| > max then None
    else if Packable(f.kind) then Join(Some(Tag(WT_STRING, f.tag)), Enclose(EncodePacked(f.kind, vs)))
    else EncodeUnpacked(f, vs)
  }

  function EncodeTagged(f: Field, v: Value): Option<Bytes>
    decreases f, 0
  {
    Join(Some(FieldTag(f)), EncodeValue(f.kind, v))
  }

  function EncodeSlot(f: Field, s: Slot): Option<Bytes>
    decreases f, 2
  {
    match s
    case One(v) =>
      if f.rule.Required? then EncodeTagged(f, v)
      else if f.rule.Singular? then if IsDefault(f, s) then Some([]) else EncodeTagged(f, v)
      else None
    case Maybe(choice) =>
      if !f.rule.Optional? && !f.rule.Oneof? then None
      else if choice.None? then Some([])
      else EncodeTagged(f, choice.value)
    case Many(vs) =>
      if f.rule.Repeated? then EncodeArray(f, f.rule.max, vs) else None
  }

  /** The fields from the i-th on, in the order of the descriptor. */
  function EncodeFields(d: Desc, slots: seq<Slot>, i: nat): Option<Bytes>
    requires |slots| == |d.fields| && i <= |slots|
    decreases d, |slots| - i
  {
    if i == |slots| then Some([]) else Join(EncodeSlot(d.fields[i], slots[i]), EncodeFields(d, slots, i + 1))
  }

  function Encode(d: Desc, slots: seq<Slot>): Option<Bytes>
    requires |slots| == |d.fields|
  {
    EncodeFields(d, slots, 0)
  }

  /** Whether a field without a has_ flag is left out because its value is zero. */
  predicate IsDefault(f: Field, s: Slot)
    decreases f
  {
    match s
    case Many(vs) => vs == []
    case Maybe(choice) => choice.None?
    case One(v) =>
      f.rule.Singular? &&
      match (f.kind, v)
      case (Bool, Truth(b)) => !b
      case (FixedLength(size), Raw(_)) => size == 0
      case (_, Raw(s)) => s == []
      case (_, Number(n)) => n == 0
      case (Submessage(d), Message(slots)) =>
        |slots| == |d.fields| && forall i :: 0 <= i < |slots| ==> IsDefault(d.fields[i], slots[i])
      case _ => false
  }

  // ----- decoding -----

  /** The value of groups, the first one lowest. */
  function SumUp(read: Bytes): nat {
    if read == [] then 0 else read[0] as nat % 128 + 128 * SumUp(read[1..])
  }

  /** A group put in at a bit position. */
  function Joined(v: nat, b: byte, bitpos: nat): (r: nat)
    requires v < TWO32 && bitpos < 32
    ensures r < TWO32
  {
    (v as bv32 | ((b % 128) as bv32 << bitpos)) as nat
  }

  /** Beyond bit 32 a group is empty, or repeats the sign of a 64-bit number. */
  predicate PaddingOk(v: nat, b: byte, bitpos: nat) {
    b % 128 == 0 || (v >= 0x8000_0000 && b == if bitpos < 63 then 0xFF else 0x01)
  }

  /** The groups after the fifth; their bit position is counted in one byte, and so comes round again. */
  function ReadPadding(s: Bytes, v: nat, bitpos: nat): (r: Parsed<nat>)
    requires v < TWO32 && bitpos < 256
    ensures r.Parsed? ==> |r.rest| < |s|
  {
    if s == [] || (bitpos >= 32 && !PaddingOk(v, s[0], bitpos)) then
      Bad
    else
      var value := if bitpos >= 32 then v else Joined(v, s[0], bitpos);
      var next := (bitpos + 7) % 256;
      if s[0] >= 128 then ReadPadding(s[1..], value, next)
      else if next == 35 && s[0] / 16 % 8 != 0 then Bad
      else Parsed(value, s[1..])
  }

  /** Up to five groups, the fifth without bits above the thirty-second; more than five only as padding. */
  function ReadVarint32(s: Bytes): (r: Parsed<nat>)
    ensures r.Parsed? ==> |r.rest| < |s|
  {
    GroupsConsumes(s, 5);
    match Groups(s, 5)
    case Bad => if |s| < 5 then Bad else ReadPadding(s[5..], SumUp(s[..5]) % TWO32, 35)
    case Parsed(v, rest) => if v < TWO32 then Parsed(v, rest) else Bad
  }

  function ReadVarint64(s: Bytes): (r: Parsed<nat>)
    ensures r.Parsed? ==> |r.rest| < |s| && r.value < TWO64
  {
    GroupsConsumes(s, 10);
    GetVarint64(s)
  }

  /** A run of bytes with its length in front. */
  function ReadPrefixed(s: Bytes): (r: Parsed<Bytes>)
    ensures r.Parsed? ==> |r.value| + |r.rest| < |s|
  {
    match ReadVarint32(s)
    case Bad => Bad
    case Parsed(len, rest) => if len <= |rest| then Parsed(rest[..len], rest[len..]) else Bad
  }

  /** The two's complement number of the low `span` of v. */
  function Cast(v: nat, span: nat): int
    requires span > 0
  {
    var low := v % span;
    if low < span / 2 then low else low - span
  }

  function Unzig(v: nat): int {
    if v % 2 == 1 then -(v / 2) - 1 else v / 2
  }

  function DecodeInt(size: nat, s: Bytes): (r: Parsed<Value>) {
    match ReadVarint64(s)
    case Bad => Bad
    case Parsed(v, rest) =>
      var n := if size == 8 then Cast(v, TWO64) else Cast(v, TWO32);
      if WidthOk(size) && Signed(size, n) then Parsed(Number(n), rest) else Bad
  }

  function DecodeUInt(size: nat, s: Bytes): (r: Parsed<Value>) {
    match ReadVarint64(s)
    case Bad => Bad
    case Parsed(v, rest) => if WidthOk(size) && v < Span(size) then Parsed(Number(v), rest) else Bad
  }

  function DecodeSInt(size: nat, s: Bytes): (r: Parsed<Value>) {
    match ReadVarint64(s)
    case Bad => Bad
    case Parsed(v, rest) =>
      if WidthOk(size) && Signed(size, Unzig(v)) then Parsed(Number(Unzig(v)), rest) else Bad
  }

  function DecodeFixed(n: nat, s: Bytes): (r: Parsed<Value>) {
    if n <= |s| then Parsed(Number(Unfixed(s[..n])), s[n..]) else Bad
  }

  function DecodeBool(s: Bytes): (r: Parsed<Value>) {
    match ReadVarint32(s)
    case Bad => Bad
    case Parsed(v, rest) => Parsed(Truth(v != 0), rest)
  }

  /** A run of bytes that `ok` accepts by its length. */
  function DecodeRaw(s: Bytes, ok: nat -> bool): (r: Parsed<Value>) {
    match ReadPrefixed(s)
    case Bad => Bad
    case Parsed(bytes, rest) => if ok(|bytes|) then Parsed(Raw(bytes), rest) else Bad
  }

  /** An empty run stands for a block of zeros. */
  function DecodeFixedLength(size: nat, s: Bytes): (r: Parsed<Value>) {
    match ReadPrefixed(s)
    case Bad => Bad
    case Parsed(bytes, rest) =>
      if bytes == [] then Parsed(Raw(Zeros(size)), rest)
      else if |bytes| == size then Parsed(Raw(bytes), rest)
      else Bad
  }

  /** Decoding a text needs room for the terminator that encoding does not insist on. */
  function DecodeScalar(k: Kind, s: Bytes): (r: Parsed<Value>)
    ensures r.Parsed? ==> |r.rest| < |s|
  {
    match k
    case Bool => DecodeBool(s)
    case Int(size) => DecodeInt(size, s)
    case UInt(size) => DecodeUInt(size, s)
    case SInt(size) => DecodeSInt(size, s)
    case Fixed32 => DecodeFixed(4, s)
    case Fixed64 => DecodeFixed(8, s)
    case ByteArray(max) => DecodeRaw(s, len => len <= max)
    case Text(max) => DecodeRaw(s, len => len + 1 <= max)
    case FixedLength(size) => DecodeFixedLength(size, s)
    case Submessage(_) => Bad
  }

  datatype TagRead = NoTag | End | TagRead(tag: nat, wt: nat, rest: Bytes)

  /** A zero ends the message early. */
  function ReadTag(s: Bytes): (r: TagRead)
    ensures r.TagRead? ==> r.wt < 8 && |r.rest| < |s|
  {
    match ReadVarint32(s)
    case Bad => NoTag
    case Parsed(v, rest) => if v == 0 then End else TagRead(v / 8, v % 8, rest)
  }

  function Drop(n: nat, s: Bytes): Option<Bytes> {
    if n <= |s| then Some(s[n..]) else None
  }

  /** Groups up to the first one without a continuation bit, however many. */
  function SkipVarint(s: Bytes): (r: Option<Bytes>)
    ensures r.Some? ==> |r.value| < |s|
  {
    if s == [] then None
    else if s[0] < 128 then Some(s[1..])
    else SkipVarint(s[1..])
  }

  function SkipField(wt: nat, s: Bytes): (r: Option<Bytes>)
    ensures r.Some? ==> |r.value| <= |s|
  {
    if wt == WT_VARINT then SkipVarint(s)
    else if wt == WT_64BIT then Drop(8, s)
    else if wt == WT_STRING then
      match ReadPrefixed(s)
      case Bad => None
      case Parsed(_, rest) => Some(rest)
    else if wt == WT_32BIT then Drop(4, s)
    else None
  }

  /** A run of packed elements, added to an array that has room for `max`. */
  function DecodePacked(k: Kind, max: nat, s: Bytes, vs: seq<Value>): Option<seq<Value>>
    decreases |s|
  {
    if s == [] then Some(vs)
    else if |vs| >= max then None
    else
      match DecodeScalar(k, s)
      case Bad => None
      case Parsed(v, rest) => DecodePacked(k, max, rest, vs + [v])
  }

  function DecodePackedSlot(k: Kind, max: nat, s: Bytes, vs: seq<Value>): (r: Parsed<Slot>)
    ensures r.Parsed? ==> |r.rest| < |s|
  {
    match ReadPrefixed(s)
    case Bad => Bad
    case Parsed(sub, rest) =>
      match DecodePacked(k, max, sub, vs)
      case None => Bad
      case Some(ws) => Parsed(Many(ws), rest)
  }

  /** One value; a submessage is decoded on top of the one that is there. */
  function DecodeValue(k: Kind, s: Bytes, was: Value): (r: Parsed<Value>)
    ensures r.Parsed? ==> |r.rest| < |s|
    decreases k
  {
    if k.Submessage? then
      match ReadPrefixed(s)
      case Bad => Bad
      case Parsed(sub, rest) =>
        if !was.Message? || |was.slots| != |k.desc.fields| then
          Bad
        else
          match DecodeNoinit(k.desc, sub, was.slots)
          case None => Bad
          case Some(slots) => Parsed(Message(slots), rest)
    else
      DecodeScalar(k, s)
  }

  function DecodeSlot(f: Field, wt: nat, s: Bytes, was: Slot): (r: Parsed<Slot>)
    ensures r.Parsed? ==> |r.rest| < |s|
    decreases f
  {
    match was
    case One(v) =>
      (match DecodeValue(f.kind, s, v)
       case Bad => Bad
       case Parsed(w, rest) => Parsed(One(w), rest))
    case Maybe(choice) =>
      (match DecodeValue(f.kind, s, if choice.Some? then choice.value else Default(f.kind))
       case Bad => Bad
       case Parsed(w, rest) => Parsed(Maybe(Some(w)), rest))
    case Many(vs) =>
      var max := if f.rule.Repeated? then f.rule.max else 0;
      if wt == WT_STRING && Packable(f.kind) then
        DecodePackedSlot(f.kind, max, s, vs)
      else if |vs| >= max then
        Bad
      else
        match DecodeValue(f.kind, s, Default(f.kind))
        case Bad => Bad
        case Parsed(w, rest) => Parsed(Many(vs + [w]), rest)
  }

  /** Storing a member of a union moves the which_ tag off the others. */
  function Put(d: Desc, slots: seq<Slot>, i: nat, s: Slot): (r: seq<Slot>)
    requires |slots| == |d.fields| && i < |slots|
    ensures |r| == |slots|
  {
    seq(|slots|, j requires 0 <= j < |slots| =>
      if j == i then s else if SameUnion(d.fields[i], d.fields[j]) then Maybe(None) else slots[j])
  }

  datatype Decoded = Decoded(slots: seq<Slot>, seen: set<nat>)

  /** The loop over the fields of a message; `seen` are the descriptor positions met so far. */
  function DecodeLoop(d: Desc, s: Bytes, slots: seq<Slot>, seen: set<nat>): (r: Option<Decoded>)
    requires |slots| == |d.fields|
    ensures r.Some? ==> |r.value.slots| == |d.fields|
    decreases d, 0, |s|
  {
    if s == [] then
      Some(Decoded(slots, seen))
    else
      match ReadTag(s)
      case NoTag => None
      case End => Some(Decoded(slots, seen))
      case TagRead(tag, wt, rest) =>
        match Find(d, tag)
        case None =>
          (match SkipField(wt, rest)
           case None => None
           case Some(rest1) => DecodeLoop(d, rest1, slots, seen))
        case Some(i) =>
          (match DecodeSlot(d.fields[i], wt, rest, slots[i])
           case Bad => None
           case Parsed(slot, rest1) => DecodeLoop(d, rest1, Put(d, slots, i, slot), seen + {i}))
  }

  function RequiredBefore(fields: seq<Field>, i: nat): (n: nat)
    requires i <= |fields|
    ensures n <= i
  {
    if i == 0 then 0 else RequiredBefore(fields, i - 1) + if fields[i - 1].rule.Required? then 1 else 0
  }

  /** Only so many required fields are checked. */
  predicate Checked(d: Desc, i: nat)
    requires i < |d.fields|
  {
    d.fields[i].rule.Required? && RequiredBefore(d.fields, i) < MAX_REQUIRED_FIELDS
  }

  predicate AllSeen(d: Desc, seen: set<nat>) {
    forall i :: 0 <= i < |d.fields| && Checked(d, i) ==> i in seen
  }

  function DecodeNoinit(d: Desc, s: Bytes, slots: seq<Slot>): (r: Option<seq<Slot>>)
    requires |slots| == |d.fields|
    ensures r.Some? ==> |r.value| == |d.fields|
    decreases d, 1
  {
    match DecodeLoop(d, s, slots, {})
    case None => None
    case Some(done) => if AllSeen(d, done.seen) then Some(done.slots) else None
  }

  function Decode(d: Desc, s: Bytes): Option<seq<Slot>> {
    DecodeNoinit(d, s, Defaults(d))
  }
}
