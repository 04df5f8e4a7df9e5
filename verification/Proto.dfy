/**
  Message descriptors and message values of the protocol buffer coder (pb.h).

  A descriptor is the array of fields that generated code hands to the encoder and the decoder; a message
  value is the C struct it describes, with one slot for each field.  The has_ flag of an optional field and
  the which_ tag of a union are read off the slots: a slot with nothing in it is a flag that is off, or a
  tag that names another member.
 */
module Proto {
  import opened Wrappers
  import opened Coding

  const MAX_TAG: nat := 0x1FFF_FFFF
  const MAX_REQUIRED_FIELDS: nat := 64

  const WT_VARINT: nat := 0
  const WT_64BIT: nat := 1
  const WT_STRING: nat := 2
  const WT_32BIT: nat := 5

  /** How the data of a field is laid out; sizes are in bytes, and those of arrays count the elements. */
  datatype Kind =
    | Bool
    | Int(size: nat)
    | UInt(size: nat)
    | SInt(size: nat)
    | Fixed32
    | Fixed64
    | ByteArray(max: nat)
    | Text(max: nat)
    | Submessage(desc: Desc)
    | FixedLength(size: nat)

  datatype Rule = Required | Optional | Singular | Repeated(max: nat) | Oneof(group: nat)

  datatype Field = Field(tag: nat, kind: Kind, rule: Rule)

  datatype Desc = Desc(fields: seq<Field>)

  datatype Value = Truth(b: bool) | Number(n: int) | Raw(bytes: Bytes) | Message(slots: seq<Slot>)

  datatype Slot = One(value: Value) | Maybe(choice: Option<Value>) | Many(values: seq<Value>)

  function WireType(k: Kind): (wt: nat)
    ensures wt < 8
  {
    match k
    case Bool => WT_VARINT
    case Int(_) => WT_VARINT
    case UInt(_) => WT_VARINT
    case SInt(_) => WT_VARINT
    case Fixed32 => WT_32BIT
    case Fixed64 => WT_64BIT
    case _ => WT_STRING
  }

  /** Arrays of these are written as one packed run. */
  predicate Packable(k: Kind) {
    k.Bool? || k.Int? || k.UInt? || k.SInt? || k.Fixed32? || k.Fixed64?
  }

  predicate WidthOk(size: nat) {
    size == 1 || size == 2 || size == 4 || size == 8
  }

  function Span(size: nat): nat {
    if size == 1 then 0x100 else if size == 2 then 0x1_0000 else if size == 4 then TWO32 else TWO64
  }

  predicate Signed(size: nat, n: int) {
    -(Span(size) / 2) <= n < Span(size) / 2
  }

  // ----- what a struct of the described type can hold -----

  predicate Holds(k: Kind, v: Value)
    decreases k
  {
    match k
    case Bool => v.Truth?
    case Int(size) => v.Number? && Signed(size, v.n)
    case UInt(size) => v.Number? && 0 <= v.n < Span(size)
    case SInt(size) => v.Number? && Signed(size, v.n)
    case Fixed32 => v.Number? && 0 <= v.n < TWO32
    case Fixed64 => v.Number? && 0 <= v.n < TWO64
    case ByteArray(_) => v.Raw?
    case Text(max) => v.Raw? && |v.bytes| <= max && 0 !in v.bytes
    case FixedLength(size) => v.Raw? && |v.bytes| == size
    case Submessage(d) => v.Message? && Fits(d, v.slots)
  }

  predicate FitsSlot(f: Field, s: Slot)
    decreases f
  {
    match f.rule
    case Required => s.One? && Holds(f.kind, s.value)
    case Singular => s.One? && Holds(f.kind, s.value)
    case Repeated(_) => s.Many? && forall j :: 0 <= j < |s.values| ==> Holds(f.kind, s.values[j])
    case _ => s.Maybe? && (s.choice.Some? ==> Holds(f.kind, s.choice.value))
  }

  predicate Fits(d: Desc, slots: seq<Slot>)
    decreases d
  {
    && |slots| == |d.fields|
    && (forall i :: 0 <= i < |d.fields| ==> FitsSlot(d.fields[i], slots[i]))
    && Exclusive(d, slots)
  }

  predicate SameUnion(f: Field, g: Field) {
    f.rule.Oneof? && f.rule == g.rule
  }

  /** The members of a union share one which_ tag. */
  predicate Exclusive(d: Desc, slots: seq<Slot>)
    requires |slots| == |d.fields|
  {
    forall i, j :: 0 <= i < |slots| && 0 <= j < |slots| && i != j && SameUnion(d.fields[i], d.fields[j]) ==>
      slots[i] == Maybe(None) || slots[j] == Maybe(None)
  }

  // ----- descriptors that the generator produces -----

  predicate KindOk(k: Kind)
    decreases k
  {
    match k
    case Int(size) => WidthOk(size)
    case UInt(size) => WidthOk(size)
    case SInt(size) => WidthOk(size)
    case Text(max) => max > 0
    case Submessage(d) => DescOk(d)
    case _ => true
  }

  predicate DescOk(d: Desc)
    decreases d
  {
    && (forall i :: 0 <= i < |d.fields| ==> 1 <= d.fields[i].tag <= MAX_TAG && KindOk(d.fields[i].kind))
    && (forall i, j :: 0 <= i < j < |d.fields| ==> d.fields[i].tag != d.fields[j].tag)
  }

  /** The first field with a given number. */
  function FindFrom(fields: seq<Field>, i: nat, tag: nat): (r: Option<nat>)
    requires i <= |fields|
    ensures r.Some? ==> i <= r.value < |fields| && fields[r.value].tag == tag
    ensures r.None? <==> forall j :: i <= j < |fields| ==> fields[j].tag != tag
    decreases |fields| - i
  {
    if i == |fields| then None
    else if fields[i].tag == tag then Some(i)
    else FindFrom(fields, i + 1, tag)
  }

  function Find(d: Desc, tag: nat): (r: Option<nat>)
    ensures r.Some? ==> r.value < |d.fields| && d.fields[r.value].tag == tag
    ensures r.None? <==> forall j :: 0 <= j < |d.fields| ==> d.fields[j].tag != tag
  {
    FindFrom(d.fields, 0, tag)
  }

  lemma {:induction false} FindOwn(d: Desc, i: nat)
    requires DescOk(d) && i < |d.fields|
    ensures Find(d, d.fields[i].tag) == Some(i)
  {
    var j := Find(d, d.fields[i].tag).value;
    assert i < j || j < i || i == j;
  }

  // ----- the value a struct starts from -----

  function Zeros(n: nat): (r: Bytes)
    ensures |r| == n
  {
    seq(n, _ => 0)
  }

  function Default(k: Kind): Value
    decreases k, 0
  {
    match k
    case Bool => Truth(false)
    case ByteArray(_) => Raw([])
    case Text(_) => Raw([])
    case FixedLength(size) => Raw(Zeros(size))
    case Submessage(d) => Message(Defaults(d))
    case _ => Number(0)
  }

  function DefaultSlot(f: Field): Slot
    decreases f, 0
  {
    match f.rule
    case Required => One(Default(f.kind))
    case Singular => One(Default(f.kind))
    case Repeated(_) => Many([])
    case _ => Maybe(None)
  }

  function Defaults(d: Desc): (slots: seq<Slot>)
    ensures |slots| == |d.fields|
    decreases d, 1
  {
    seq(|d.fields|, i requires 0 <= i < |d.fields| => DefaultSlot(d.fields[i]))
  }
}
