/**
  Decoding what was encoded, for any message of any descriptor, and for a reader whose descriptor is not
  the writer's: fields it does not know are stepped over, fields the writer does not have keep their
  default.
 */
module ProtoRoundTrip {
  import opened Wrappers
  import opened Coding
  import opened Proto
  import opened ProtoWire
  import opened ProtoScalars

  // ----- what the reader ends up with -----

  /** Every text leaves room for its terminator. */
  predicate Terminated(k: Kind, v: Value)
    decreases k
  {
    if k.Submessage? then
      v.Message? && |v.slots| == |k.desc.fields| ==>
        forall i :: 0 <= i < |v.slots| ==> TerminatedSlot(k.desc.fields[i], v.slots[i])
    else
      !Unterminated(k, v)
  }

  predicate TerminatedSlot(f: Field, s: Slot)
    decreases f
  {
    match s
    case One(v) => Terminated(f.kind, v)
    case Maybe(choice) => choice.Some? ==> Terminated(f.kind, choice.value)
    case Many(vs) => forall j :: 0 <= j < |vs| ==> Terminated(f.kind, vs[j])
  }

  predicate Known(r: Desc, f: Field) {
    Find(r, f.tag).Some?
  }

  /** The reader and the writer mean the same by every field number they share. */
  predicate Agree(r: Desc, d: Desc) {
    forall i, j :: 0 <= i < |d.fields| && 0 <= j < |r.fields| && d.fields[i].tag == r.fields[j].tag ==>
      d.fields[i] == r.fields[j]
  }

  predicate ReadableAt(r: Desc, d: Desc, slots: seq<Slot>, i: nat)
    requires i < |slots| == |d.fields|
  {
    Known(r, d.fields[i]) ==> TerminatedSlot(d.fields[i], slots[i])
  }

  predicate Readable(r: Desc, d: Desc, slots: seq<Slot>, from: nat)
    requires |slots| == |d.fields|
  {
    forall i :: from <= i < |slots| ==> ReadableAt(r, d, slots, i)
  }

  /** The writer has every required field that the reader checks. */
  predicate Supplies(d: Desc, r: Desc) {
    forall j :: 0 <= j < |r.fields| && Checked(r, j) ==> Known(d, r.fields[j])
  }

  predicate SentBefore(d: Desc, f: Field, n: nat) {
    Find(d, f.tag).Some? && Find(d, f.tag).value < n
  }

  function ReceivedSlot(f: Field, d: Desc, slots: seq<Slot>, n: nat): Slot
    requires |slots| == |d.fields|
  {
    if SentBefore(d, f, n) then slots[Find(d, f.tag).value] else DefaultSlot(f)
  }

  /** The reader's struct once the first n fields of the writer have gone by. */
  function Received(r: Desc, d: Desc, slots: seq<Slot>, n: nat): (s: seq<Slot>)
    requires |slots| == |d.fields|
    ensures |s| == |r.fields|
  {
    seq(|r.fields|, j requires 0 <= j < |r.fields| => ReceivedSlot(r.fields[j], d, slots, n))
  }

  predicate SeenOk(r: Desc, d: Desc, seen: set<nat>, n: nat) {
    forall j :: 0 <= j < |r.fields| && r.fields[j].rule.Required? ==> (j in seen <==> SentBefore(d, r.fields[j], n))
  }

  // ----- one turn of the decoding loop -----

  lemma {:induction false} TagNonEmpty(wt: nat, tag: nat, rest: Bytes)
    ensures Tag(wt, tag) + rest != []
  {}

  lemma {:induction false} LoopKnown(r: Desc, j: nat, wt: nat, rest: Bytes, was: seq<Slot>, seen: set<nat>)
    requires DescOk(r) && j < |r.fields| == |was| && wt < 8
    ensures DecodeLoop(r, Tag(wt, r.fields[j].tag) + rest, was, seen) ==
            match DecodeSlot(r.fields[j], wt, rest, was[j])
            case Bad => None
            case Parsed(slot, rest1) => DecodeLoop(r, rest1, Put(r, was, j, slot), seen + {j})
  {
    TagNonEmpty(wt, r.fields[j].tag, rest);
    ReadTagBack(r.fields[j].tag, wt, rest);
    FindOwn(r, j);
  }

  lemma {:induction false} LoopUnknown(r: Desc, tag: nat, wt: nat, rest: Bytes, was: seq<Slot>, seen: set<nat>)
    requires |r.fields| == |was| && wt < 8 && 1 <= tag <= MAX_TAG && Find(r, tag) == None
    ensures DecodeLoop(r, Tag(wt, tag) + rest, was, seen) ==
            match SkipField(wt, rest)
            case None => None
            case Some(rest1) => DecodeLoop(r, rest1, was, seen)
  {
    TagNonEmpty(wt, tag, rest);
    ReadTagBack(tag, wt, rest);
  }

  // ----- fields that are not written -----

  lemma {:induction false} DefaultIsZero(f: Field, s: Slot)
    requires FitsSlot(f, s) && IsDefault(f, s)
    ensures s == DefaultSlot(f)
    decreases f
  {
    if s.One? && f.kind.Submessage? {
      var d := f.kind.desc;
      assert Fits(d, s.value.slots);
      forall i | 0 <= i < |d.fields|
        ensures s.value.slots[i] == Defaults(d)[i]
      {
        DefaultIsZero(d.fields[i], s.value.slots[i]);
      }
      assert s.value.slots == Defaults(d);
    } else if s.One? && f.kind.FixedLength? {
      assert s.value.bytes == Zeros(f.kind.size);
    }
  }

  /** A field that may be left out when it has its default: nothing in it must be sent. */
  predicate Omittable(f: Field)
    decreases f
  {
    match f.rule
    case Required => false
    case Singular =>
      (match f.kind
       case FixedLength(size) => size == 0
       case Submessage(d) => forall i :: 0 <= i < |d.fields| ==> Omittable(d.fields[i])
       case _ => true)
    case _ => true
  }

  /** A field is left out exactly if it has its default, all the way down, and may be left out. */
  lemma {:induction false} LeftOutIff(f: Field, s: Slot)
    requires FitsSlot(f, s)
    ensures IsDefault(f, s) <==> s == DefaultSlot(f) && Omittable(f)
    decreases f
  {
    if IsDefault(f, s) {
      DefaultIsZero(f, s);
    }
    if s.One? && f.kind.Submessage? && f.rule.Singular? {
      var d := f.kind.desc;
      assert Fits(d, s.value.slots);
      forall i | 0 <= i < |d.fields|
        ensures IsDefault(d.fields[i], s.value.slots[i]) <==>
                s.value.slots[i] == Defaults(d)[i] && Omittable(d.fields[i])
      {
        LeftOutIff(d.fields[i], s.value.slots[i]);
      }
    }
  }

  lemma {:induction false} DefaultTerminated(k: Kind)
    requires KindOk(k)
    ensures Terminated(k, Default(k))
    decreases k, 0
  {
    if k.Submessage? {
      var d := k.desc;
      forall i | 0 <= i < |d.fields|
        ensures TerminatedSlot(d.fields[i], Defaults(d)[i])
      {
        DefaultSlotTerminated(d.fields[i]);
      }
    }
  }

  lemma {:induction false} DefaultSlotTerminated(f: Field)
    requires KindOk(f.kind)
    ensures TerminatedSlot(f, DefaultSlot(f))
    decreases f, 0
  {
    DefaultTerminated(f.kind);
  }

  // ----- how a field changes the reader's struct -----

  /** Position i of the writer is where the reader's field j comes from. */
  lemma {:induction false} SourceOf(r: Desc, d: Desc, i: nat, j: nat)
    requires DescOk(d) && DescOk(r) && Agree(r, d) && i < |d.fields| && j < |r.fields|
    ensures Find(d, r.fields[j].tag) == Some(i) <==> Find(r, d.fields[i].tag) == Some(j)
    ensures Find(d, r.fields[j].tag) == Some(i) ==> r.fields[j] == d.fields[i]
  {
    FindOwn(d, i);
    FindOwn(r, j);
  }

  lemma {:induction false} PassUnknown(r: Desc, d: Desc, slots: seq<Slot>, i: nat, seen: set<nat>)
    requires DescOk(d) && DescOk(r) && Agree(r, d) && i < |slots| == |d.fields| && !Known(r, d.fields[i])
    requires SeenOk(r, d, seen, i)
    ensures Received(r, d, slots, i + 1) == Received(r, d, slots, i) && SeenOk(r, d, seen, i + 1)
  {
    forall j | 0 <= j < |r.fields|
      ensures SentBefore(d, r.fields[j], i + 1) == SentBefore(d, r.fields[j], i)
    {
      SourceOf(r, d, i, j);
    }
  }

  lemma {:induction false} PassDefault(r: Desc, d: Desc, slots: seq<Slot>, i: nat, seen: set<nat>)
    requires DescOk(d) && DescOk(r) && Agree(r, d) && i < |slots| == |d.fields|
    requires slots[i] == DefaultSlot(d.fields[i]) && !d.fields[i].rule.Required?
    requires SeenOk(r, d, seen, i)
    ensures Received(r, d, slots, i + 1) == Received(r, d, slots, i) && SeenOk(r, d, seen, i + 1)
  {
    forall j | 0 <= j < |r.fields|
      ensures ReceivedSlot(r.fields[j], d, slots, i + 1) == ReceivedSlot(r.fields[j], d, slots, i)
      ensures r.fields[j].rule.Required? ==>
                SentBefore(d, r.fields[j], i + 1) == SentBefore(d, r.fields[j], i)
    {
      SourceOf(r, d, i, j);
    }
  }

  lemma {:induction false} StoredAt(r: Desc, d: Desc, slots: seq<Slot>, i: nat, j: nat, k: nat)
    requires DescOk(d) && DescOk(r) && Agree(r, d) && i < |slots| == |d.fields| && Exclusive(d, slots)
    requires slots[i] != Maybe(None)
    requires Find(r, d.fields[i].tag) == Some(j) && k < |r.fields|
    ensures Put(r, Received(r, d, slots, i), j, slots[i])[k] == Received(r, d, slots, i + 1)[k]
    ensures SentBefore(d, r.fields[k], i + 1) <==> SentBefore(d, r.fields[k], i) || k == j
  {
    SourceOf(r, d, i, k);
    SourceOf(r, d, i, j);
    if k != j && SameUnion(r.fields[j], r.fields[k]) && SentBefore(d, r.fields[k], i) {
      var i1 := Find(d, r.fields[k].tag).value;
      SourceOf(r, d, i1, k);
      assert SameUnion(d.fields[i], d.fields[i1]);
      assert slots[i1] == Maybe(None);
    }
  }

  lemma {:induction false} Stored(r: Desc, d: Desc, slots: seq<Slot>, i: nat, j: nat, seen: set<nat>)
    requires DescOk(d) && DescOk(r) && Agree(r, d) && i < |slots| == |d.fields| && Exclusive(d, slots)
    requires slots[i] != Maybe(None)
    requires Find(r, d.fields[i].tag) == Some(j) && SeenOk(r, d, seen, i)
    ensures Put(r, Received(r, d, slots, i), j, slots[i]) == Received(r, d, slots, i + 1)
    ensures SeenOk(r, d, seen + {j}, i + 1)
  {
    forall k | 0 <= k < |r.fields|
      ensures Put(r, Received(r, d, slots, i), j, slots[i])[k] == Received(r, d, slots, i + 1)[k]
      ensures SentBefore(d, r.fields[k], i + 1) <==> SentBefore(d, r.fields[k], i) || k == j
    {
      StoredAt(r, d, slots, i, j, k);
    }
  }

  /** Before its turn, the field the reader is about to get still has its default. */
  lemma {:induction false} NotYet(r: Desc, d: Desc, slots: seq<Slot>, i: nat, j: nat)
    requires DescOk(d) && DescOk(r) && Agree(r, d) && i < |slots| == |d.fields|
    requires Find(r, d.fields[i].tag) == Some(j)
    ensures r.fields[j] == d.fields[i] && Received(r, d, slots, i)[j] == DefaultSlot(d.fields[i])
  {
    SourceOf(r, d, i, j);
  }

  // ----- stepping over a field that the reader does not know -----

  lemma {:induction false} SkipValue(k: Kind, v: Value, b: Bytes, rest: Bytes)
    requires EncodeValue(k, v) == Some(b) && |b| < TWO32
    ensures SkipField(WireType(k), b + rest) == Some(rest)
  {
    if k.Submessage? {
      ReadPrefixedBack(EncodeFields(k.desc, v.slots, 0).value, rest);
    } else {
      SkipScalar(k, v, b, rest);
    }
  }

  lemma {:induction false} TaggedSkipped(r: Desc, f: Field, v: Value, b: Bytes, t: Bytes, was: seq<Slot>,
                                         seen: set<nat>)
    requires |r.fields| == |was| && 1 <= f.tag <= MAX_TAG && !Known(r, f)
    requires EncodeTagged(f, v) == Some(b) && |b| < TWO32
    ensures DecodeLoop(r, b + t, was, seen) == DecodeLoop(r, t, was, seen)
  {
    var vb := EncodeValue(f.kind, v).value;
    SkipValue(f.kind, v, vb, t);
    LoopUnknown(r, f.tag, WireType(f.kind), vb + t, was, seen);
    assert b + t == FieldTag(f) + (vb + t);
  }

  lemma {:induction false} UnpackedSkipped(r: Desc, f: Field, vs: seq<Value>, b: Bytes, t: Bytes, was: seq<Slot>,
                                           seen: set<nat>)
    requires |r.fields| == |was| && 1 <= f.tag <= MAX_TAG && !Known(r, f)
    requires EncodeUnpacked(f, vs) == Some(b) && |b| < TWO32
    ensures DecodeLoop(r, b + t, was, seen) == DecodeLoop(r, t, was, seen)
  {
    if vs == [] {
      assert b + t == t;
    } else {
      var head, tail := EncodeTagged(f, vs[0]).value, EncodeUnpacked(f, vs[1..]).value;
      assert b + t == head + (tail + t);
      TaggedSkipped(r, f, vs[0], head, tail + t, was, seen);
      UnpackedSkipped(r, f, vs[1..], tail, t, was, seen);
    }
  }

  lemma {:induction false} RunSkipped(r: Desc, f: Field, run: Bytes, t: Bytes, was: seq<Slot>, seen: set<nat>)
    requires |r.fields| == |was| && 1 <= f.tag <= MAX_TAG && !Known(r, f) && |run| < TWO32
    ensures DecodeLoop(r, Tag(WT_STRING, f.tag) + Prefixed(run) + t, was, seen) == DecodeLoop(r, t, was, seen)
  {
    ReadPrefixedBack(run, t);
    LoopUnknown(r, f.tag, WT_STRING, Prefixed(run) + t, was, seen);
    assert Tag(WT_STRING, f.tag) + Prefixed(run) + t == Tag(WT_STRING, f.tag) + (Prefixed(run) + t);
  }

  lemma {:induction false} SlotSkipped(r: Desc, f: Field, s: Slot, b: Bytes, t: Bytes, was: seq<Slot>, seen: set<nat>)
    requires |r.fields| == |was| && 1 <= f.tag <= MAX_TAG && !Known(r, f)
    requires EncodeSlot(f, s) == Some(b) && |b| < TWO32
    ensures DecodeLoop(r, b + t, was, seen) == DecodeLoop(r, t, was, seen)
  {
    if b == [] {
      assert b + t == t;
    } else {
      match s
      case One(v) => TaggedSkipped(r, f, v, b, t, was, seen);
      case Maybe(choice) => TaggedSkipped(r, f, choice.value, b, t, was, seen);
      case Many(vs) =>
        if Packable(f.kind) {
          RunSkipped(r, f, EncodePacked(f.kind, vs).value, t, was, seen);
        } else {
          UnpackedSkipped(r, f, vs, b, t, was, seen);
        }
    }
  }

  // ----- taking in a field that the reader knows -----

  predicate ValueComesBack(k: Kind, v: Value, b: Bytes, rest: Bytes) {
    DecodeValue(k, b + rest, Default(k)) == if Terminated(k, v) then Parsed(v, rest) else Bad
  }

  lemma {:induction false} TaggedTaken(r: Desc, j: nat, v: Value, s: Slot, vb: Bytes, t: Bytes, was: seq<Slot>,
                                       seen: set<nat>)
    requires DescOk(r) && j < |r.fields| == |was| && was[j] == DefaultSlot(r.fields[j])
    requires FitsSlot(r.fields[j], s) && (s == One(v) || s == Maybe(Some(v)))
    requires ValueComesBack(r.fields[j].kind, v, vb, t)
    ensures DecodeLoop(r, FieldTag(r.fields[j]) + vb + t, was, seen) ==
            if TerminatedSlot(r.fields[j], s) then DecodeLoop(r, t, Put(r, was, j, s), seen + {j}) else None
  {
    var f := r.fields[j];
    LoopKnown(r, j, WireType(f.kind), vb + t, was, seen);
    assert FieldTag(f) + vb + t == FieldTag(f) + (vb + t);
  }

  lemma {:induction false} PackedTaken(r: Desc, j: nat, vs: seq<Value>, run: Bytes, t: Bytes, was: seq<Slot>,
                                       seen: set<nat>)
    requires DescOk(r) && j < |r.fields| == |was| && was[j] == Many([])
    requires var f := r.fields[j]; f.rule.Repeated? && Packable(f.kind) && FitsSlot(f, Many(vs)) && |vs| <= f.rule.max
    requires EncodePacked(r.fields[j].kind, vs) == Some(run) && |run| < TWO32
    ensures DecodeLoop(r, Tag(WT_STRING, r.fields[j].tag) + Prefixed(run) + t, was, seen) ==
            DecodeLoop(r, t, Put(r, was, j, Many(vs)), seen + {j})
  {
    var f := r.fields[j];
    PackedBack(f.kind, f.rule.max, vs, run, []);
    assert [] + vs == vs;
    ReadPrefixedBack(run, t);
    LoopKnown(r, j, WT_STRING, Prefixed(run) + t, was, seen);
    assert Tag(WT_STRING, f.tag) + Prefixed(run) + t == Tag(WT_STRING, f.tag) + (Prefixed(run) + t);
  }

  lemma {:induction false} ElementTaken(r: Desc, j: nat, v: Value, before: seq<Value>, vb: Bytes, t: Bytes,
                                        was: seq<Slot>, seen: set<nat>)
    requires DescOk(r) && j < |r.fields| == |was| && was[j] == Many(before)
    requires var f := r.fields[j]; f.rule.Repeated? && !Packable(f.kind) && |before| < f.rule.max
    requires ValueComesBack(r.fields[j].kind, v, vb, t)
    ensures DecodeLoop(r, FieldTag(r.fields[j]) + vb + t, was, seen) ==
            if Terminated(r.fields[j].kind, v) then DecodeLoop(r, t, was[j := Many(before + [v])], seen + {j}) else None
  {
    var f := r.fields[j];
    LoopKnown(r, j, WireType(f.kind), vb + t, was, seen);
    assert FieldTag(f) + vb + t == FieldTag(f) + (vb + t);
    assert Put(r, was, j, Many(before + [v])) == was[j := Many(before + [v])];
  }

  // ----- values inside messages inside values -----

  /** A value of any depth comes back, unless some text in it is unterminated. */
  lemma {:induction false} ValueBack(k: Kind, v: Value, b: Bytes, rest: Bytes)
    requires KindOk(k) && Holds(k, v) && EncodeValue(k, v) == Some(b) && |b| < TWO32
    ensures ValueComesBack(k, v, b, rest)
    decreases k, 0
  {
    if k.Submessage? {
      var d, sub := k.desc, EncodeFields(k.desc, v.slots, 0).value;
      ReadPrefixedBack(sub, rest);
      MessageBack(d, d, v.slots, sub);
      OwnReader(d, v.slots);
    } else {
      ScalarBack(k, v, b, rest);
    }
  }

  lemma {:induction false} FirstTaken(r: Desc, j: nat, vs: seq<Value>, before: seq<Value>, b: Bytes, t: Bytes,
                                      was: seq<Slot>, seen: set<nat>)
    requires DescOk(r) && j < |r.fields| == |was| && was[j] == Many(before) && vs != []
    requires var f := r.fields[j];
             f.rule.Repeated? && !Packable(f.kind) && Holds(f.kind, vs[0]) && |before| < f.rule.max
    requires EncodeUnpacked(r.fields[j], vs) == Some(b) && |b| < TWO32
    ensures EncodeUnpacked(r.fields[j], vs[1..]).Some? && |EncodeUnpacked(r.fields[j], vs[1..]).value| < TWO32
    ensures DecodeLoop(r, b + t, was, seen) ==
            if Terminated(r.fields[j].kind, vs[0])
            then DecodeLoop(r, EncodeUnpacked(r.fields[j], vs[1..]).value + t, was[j := Many(before + [vs[0]])],
                            seen + {j})
            else None
    decreases r.fields[j], 0
  {
    var f := r.fields[j];
    FirstOf(f, vs, b);
    var vb, tail := EncodeValue(f.kind, vs[0]).value, EncodeUnpacked(f, vs[1..]).value;
    ValueBack(f.kind, vs[0], vb, tail + t);
    ElementOf(r, j, vs[0], before, vb, tail, b, t, was, seen);
  }

  lemma {:induction false} ElementOf(r: Desc, j: nat, v: Value, before: seq<Value>, vb: Bytes, tail: Bytes, b: Bytes,
                                     t: Bytes, was: seq<Slot>, seen: set<nat>)
    requires DescOk(r) && j < |r.fields| == |was| && was[j] == Many(before)
    requires var f := r.fields[j]; f.rule.Repeated? && !Packable(f.kind) && |before| < f.rule.max
    requires b == FieldTag(r.fields[j]) + vb + tail && ValueComesBack(r.fields[j].kind, v, vb, tail + t)
    ensures DecodeLoop(r, b + t, was, seen) ==
            if Terminated(r.fields[j].kind, v)
            then DecodeLoop(r, tail + t, was[j := Many(before + [v])], seen + {j}) else None
  {
    ElementTaken(r, j, v, before, vb, tail + t, was, seen);
    assert b + t == FieldTag(r.fields[j]) + vb + (tail + t);
  }

  lemma {:induction false} FirstOf(f: Field, vs: seq<Value>, b: Bytes)
    requires vs != [] && EncodeUnpacked(f, vs) == Some(b)
    ensures EncodeValue(f.kind, vs[0]).Some? && EncodeUnpacked(f, vs[1..]).Some?
    ensures b == FieldTag(f) + EncodeValue(f.kind, vs[0]).value + EncodeUnpacked(f, vs[1..]).value
  {}

  lemma {:induction false} UnpackedTaken(r: Desc, j: nat, vs: seq<Value>, before: seq<Value>, b: Bytes, t: Bytes,
                                         was: seq<Slot>, seen: set<nat>)
    requires DescOk(r) && j < |r.fields| == |was| && was[j] == Many(before) && vs != []
    requires var f := r.fields[j];
             f.rule.Repeated? && !Packable(f.kind) && FitsSlot(f, Many(vs)) && |before| + |vs| <= f.rule.max
    requires EncodeUnpacked(r.fields[j], vs) == Some(b) && |b| < TWO32
    ensures DecodeLoop(r, b + t, was, seen) ==
            if TerminatedSlot(r.fields[j], Many(vs)) then DecodeLoop(r, t, was[j := Many(before + vs)], seen + {j})
            else None
    decreases r.fields[j], 1, |vs|
  {
    var f := r.fields[j];
    FirstTaken(r, j, vs, before, b, t, was, seen);
    var tail := EncodeUnpacked(f, vs[1..]).value;
    var was1 := was[j := Many(before + [vs[0]])];
    TerminatedTail(f, vs);
    AppendFirst(before, vs);
    if |vs| == 1 {
      assert tail + t == t;
    } else if Terminated(f.kind, vs[0]) {
      UnpackedTaken(r, j, vs[1..], before + [vs[0]], tail, t, was1, seen + {j});
      assert was1[j := Many(before + vs)] == was[j := Many(before + vs)];
      assert seen + {j} + {j} == seen + {j};
    }
  }

  lemma {:induction false} AppendFirst(before: seq<Value>, vs: seq<Value>)
    requires vs != []
    ensures before + [vs[0]] + vs[1..] == before + vs && (|vs| == 1 ==> before + [vs[0]] == before + vs)
  {}

  lemma {:induction false} TerminatedTail(f: Field, vs: seq<Value>)
    requires vs != []
    ensures TerminatedSlot(f, Many(vs)) <==> Terminated(f.kind, vs[0]) && TerminatedSlot(f, Many(vs[1..]))
  {
    forall j | 0 < j < |vs|
      ensures vs[j] == vs[1..][j - 1]
    {}
  }

  lemma {:induction false} ManyTaken(r: Desc, j: nat, vs: seq<Value>, a: Bytes, t: Bytes, was: seq<Slot>,
                                     seen: set<nat>)
    requires DescOk(r) && j < |r.fields| == |was| && was[j] == DefaultSlot(r.fields[j])
    requires FitsSlot(r.fields[j], Many(vs)) && vs != []
    requires EncodeSlot(r.fields[j], Many(vs)) == Some(a) && |a| < TWO32
    ensures DecodeLoop(r, a + t, was, seen) ==
            if TerminatedSlot(r.fields[j], Many(vs))
               then DecodeLoop(r, t, Put(r, was, j, Many(vs)), seen + {j}) else None
    decreases r.fields[j], 2
  {
    var f := r.fields[j];
    if Packable(f.kind) {
      PackedTaken(r, j, vs, EncodePacked(f.kind, vs).value, t, was, seen);
    } else {
      UnpackedTaken(r, j, vs, [], a, t, was, seen);
      assert [] + vs == vs;
      assert Put(r, was, j, Many(vs)) == was[j := Many(vs)];
    }
  }

  /** One field of the writer, known to the reader and written out. */
  lemma {:induction false} SlotTaken(r: Desc, j: nat, s: Slot, a: Bytes, t: Bytes, was: seq<Slot>, seen: set<nat>)
    requires DescOk(r) && j < |r.fields| == |was| && was[j] == DefaultSlot(r.fields[j]) && FitsSlot(r.fields[j], s)
    requires EncodeSlot(r.fields[j], s) == Some(a) && a != [] && |a| < TWO32
    ensures DecodeLoop(r, a + t, was, seen) ==
            if TerminatedSlot(r.fields[j], s) then DecodeLoop(r, t, Put(r, was, j, s), seen + {j}) else None
    decreases r.fields[j], 3
  {
    var f := r.fields[j];
    if s.Many? {
      ManyTaken(r, j, s.values, a, t, was, seen);
    } else {
      var v := if s.One? then s.value else s.choice.value;
      var vb := EncodeValue(f.kind, v).value;
      ValueBack(f.kind, v, vb, t);
      TaggedTaken(r, j, v, s, vb, t, was, seen);
    }
  }

  lemma {:induction false} UnpackedNonEmpty(f: Field, vs: seq<Value>)
    ensures EncodeUnpacked(f, vs) == Some([]) ==> vs == []
  {
    if vs != [] {
      assert FieldTag(f) != [];
    }
  }

  lemma {:induction false} WrittenNonEmpty(f: Field, s: Slot)
    requires FitsSlot(f, s) && EncodeSlot(f, s) == Some([])
    ensures IsDefault(f, s)
  {
    assert FieldTag(f) != [];
    if s.Many? {
      UnpackedNonEmpty(f, s.values);
    }
  }

  /** A field that is left out had its default. */
  lemma {:induction false} LeftOut(f: Field, s: Slot)
    requires FitsSlot(f, s) && EncodeSlot(f, s) == Some([]) && KindOk(f.kind)
    ensures s == DefaultSlot(f) && !f.rule.Required? && TerminatedSlot(f, s)
  {
    assert IsDefault(f, s) by {
      WrittenNonEmpty(f, s);
    }
    DefaultIsZero(f, s);
    DefaultSlotTerminated(f);
  }

  lemma {:induction false} FieldBack(r: Desc, d: Desc, slots: seq<Slot>, i: nat, a: Bytes, t: Bytes, seen: set<nat>)
      returns (after: set<nat>)
    requires DescOk(d) && DescOk(r) && Agree(r, d) && Fits(d, slots) && i < |slots|
    requires EncodeSlot(d.fields[i], slots[i]) == Some(a) && |a| < TWO32 && SeenOk(r, d, seen, i)
    ensures DecodeLoop(r, a + t, Received(r, d, slots, i), seen) ==
            if ReadableAt(r, d, slots, i) then DecodeLoop(r, t, Received(r, d, slots, i + 1), after) else None
    ensures SeenOk(r, d, after, i + 1)
    decreases d.fields[i], 4
  {
    var f := d.fields[i];
    after := seen;
    if !Known(r, f) {
      SlotSkipped(r, f, slots[i], a, t, Received(r, d, slots, i), seen);
      PassUnknown(r, d, slots, i, seen);
    } else if a == [] {
      LeftOut(f, slots[i]);
      PassDefault(r, d, slots, i, seen);
      assert a + t == t;
    } else {
      var j := Find(r, f.tag).value;
      after := seen + {j};
      NotYet(r, d, slots, i, j);
      SlotTaken(r, j, slots[i], a, t, Received(r, d, slots, i), seen);
      assert slots[i] != Maybe(None);
      Stored(r, d, slots, i, j, seen);
    }
  }

  lemma {:induction false} FieldsBack(r: Desc, d: Desc, slots: seq<Slot>, i: nat, b: Bytes, seen: set<nat>)
      returns (done: set<nat>)
    requires DescOk(d) && DescOk(r) && Agree(r, d) && Fits(d, slots) && i <= |slots|
    requires EncodeFields(d, slots, i) == Some(b) && |b| < TWO32 && SeenOk(r, d, seen, i)
    ensures DecodeLoop(r, b, Received(r, d, slots, i), seen) ==
            if Readable(r, d, slots, i) then Some(Decoded(Received(r, d, slots, |slots|), done)) else None
    ensures SeenOk(r, d, done, |slots|)
    decreases d, 0, |slots| - i
  {
    if i == |slots| {
      done := seen;
    } else {
      var a, t := EncodeSlot(d.fields[i], slots[i]).value, EncodeFields(d, slots, i + 1).value;
      var after := FieldBack(r, d, slots, i, a, t, seen);
      done := FieldsBack(r, d, slots, i + 1, t, after);
      ReadableSplit(r, d, slots, i);
    }
  }

  lemma {:induction false} ReadableSplit(r: Desc, d: Desc, slots: seq<Slot>, i: nat)
    requires i < |slots| == |d.fields|
    ensures Readable(r, d, slots, i) <==> ReadableAt(r, d, slots, i) && Readable(r, d, slots, i + 1)
  {}

  // ----- the main results -----

  lemma {:induction false} NothingReceived(r: Desc, d: Desc, slots: seq<Slot>)
    requires |slots| == |d.fields|
    ensures Received(r, d, slots, 0) == Defaults(r) && SeenOk(r, d, {}, 0)
  {}

  lemma {:induction false} SeenIsSupplied(r: Desc, d: Desc, done: set<nat>)
    requires SeenOk(r, d, done, |d.fields|)
    ensures AllSeen(r, done) <==> Supplies(d, r)
  {
    forall j | 0 <= j < |r.fields| && Checked(r, j)
      ensures j in done <==> Known(d, r.fields[j])
    {}
  }

  /**
    What any reader makes of any written message: it succeeds exactly if every text it takes in is
    terminated and every required field that it checks is one of the writer's, and then holds the
    writer's value in every field the two share and the default in all others.
   */
  lemma {:induction false} MessageBack(r: Desc, d: Desc, slots: seq<Slot>, b: Bytes)
    requires DescOk(d) && DescOk(r) && Agree(r, d) && Fits(d, slots)
    requires EncodeFields(d, slots, 0) == Some(b) && |b| < TWO32
    ensures DecodeNoinit(r, b, Defaults(r)) ==
            if Readable(r, d, slots, 0) && Supplies(d, r) then Some(Received(r, d, slots, |slots|)) else None
    decreases d, 1
  {
    NothingReceived(r, d, slots);
    var done := FieldsBack(r, d, slots, 0, b, {});
    SeenIsSupplied(r, d, done);
  }

  lemma {:induction false} OwnReader(d: Desc, slots: seq<Slot>)
    requires DescOk(d) && |slots| == |d.fields|
    ensures Agree(d, d) && Supplies(d, d) && Received(d, d, slots, |slots|) == slots
    ensures Readable(d, d, slots, 0) <==> Terminated(Submessage(d), Message(slots))
  {
    forall i | 0 <= i < |slots|
      ensures Find(d, d.fields[i].tag) == Some(i)
    {
      FindOwn(d, i);
    }
    forall i | 0 <= i < |slots|
      ensures ReadableAt(d, d, slots, i) <==> TerminatedSlot(d.fields[i], slots[i])
    {}
  }

  /** The round trip: a message comes back unchanged if every text in it is terminated, and only then. */
  lemma {:induction false} RoundTripIff(d: Desc, slots: seq<Slot>, b: Bytes)
    requires DescOk(d) && Fits(d, slots) && Encode(d, slots) == Some(b) && |b| < TWO32
    ensures Decode(d, b) == if Terminated(Submessage(d), Message(slots)) then Some(slots) else None
  {
    OwnReader(d, slots);
    MessageBack(d, d, slots, b);
  }

  lemma {:induction false} EncodeOne(f: Field, s: Slot, a: Bytes)
    requires EncodeSlot(f, s) == Some(a)
    ensures Encode(Desc([f]), [s]) == Some(a)
  {
    assert EncodeFields(Desc([f]), [s], 1) == Some([]);
    assert a + [] == a;
  }

  /** A text that fills its array is written without complaint, and the result cannot be read. */
  lemma {:induction false} FullTextIsLost()
    ensures var d, slots := Desc([Field(1, Text(2), Required)]), [One(Raw([97, 98]))];
            DescOk(d) && Fits(d, slots) && Encode(d, slots) == Some([10, 2, 97, 98])
              && Decode(d, [10, 2, 97, 98]) == None
  {
    var f, s := Field(1, Text(2), Required), One(Raw([97, 98]));
    var d, slots := Desc([f]), [s];
    assert Tag(WT_STRING, 1) + Prefixed([97, 98]) == [10, 2, 97, 98];
    EncodeOne(f, s, [10, 2, 97, 98]);
    assert !TerminatedSlot(d.fields[0], slots[0]);
    RoundTripIff(d, slots, [10, 2, 97, 98]);
  }
}
