/**
  Decoding a message into a struct that already holds one (pb_decode.c): singular fields are replaced,
  submessages are merged, arrays are appended to, in whatever packed or unpacked pieces they come.
 */
module ProtoMerge {
  import opened Wrappers
  import opened Coding
  import opened Proto
  import opened ProtoWire
  import opened ProtoScalars
  import opened ProtoRoundTrip

  // ----- arrays that come in pieces -----

  /** One element behind its own tag, or a packed run of them. */
  datatype Chunk = Single(value: Value) | Run(values: seq<Value>)

  function ChunkBytes(f: Field, c: Chunk): Option<Bytes> {
    match c
    case Single(v) => Join(Some(FieldTag(f)), EncodeScalar(f.kind, v))
    case Run(vs) => Join(Some(Tag(WT_STRING, f.tag)), Enclose(EncodePacked(f.kind, vs)))
  }

  function ChunkValues(c: Chunk): seq<Value> {
    match c
    case Single(v) => [v]
    case Run(vs) => vs
  }

  function AllBytes(f: Field, cs: seq<Chunk>): Option<Bytes> {
    if cs == [] then Some([]) else Join(ChunkBytes(f, cs[0]), AllBytes(f, cs[1..]))
  }

  function AllValues(cs: seq<Chunk>): seq<Value> {
    if cs == [] then [] else ChunkValues(cs[0]) + AllValues(cs[1..])
  }

  predicate HoldsAll(k: Kind, vs: seq<Value>) {
    forall i :: 0 <= i < |vs| ==> Holds(k, vs[i])
  }

  predicate ChunksHold(k: Kind, cs: seq<Chunk>) {
    forall i :: 0 <= i < |cs| ==> HoldsAll(k, ChunkValues(cs[i]))
  }

  /** A run that does not fit behind what is there is an error. */
  lemma {:induction false} PackedFull(k: Kind, max: nat, vs: seq<Value>, b: Bytes, before: seq<Value>)
    requires Packable(k) && KindOk(k) && HoldsAll(k, vs)
    requires EncodePacked(k, vs) == Some(b) && |b| < TWO32 && |before| <= max < |before| + |vs|
    ensures DecodePacked(k, max, b, before) == None
  {
    var head, tail := EncodeScalar(k, vs[0]).value, EncodePacked(k, vs[1..]).value;
    ScalarNonEmpty(k, vs[0]);
    ScalarBack(k, vs[0], head, tail);
    if |before| < max {
      PackedFull(k, max, vs[1..], tail, before + [vs[0]]);
    }
  }

  /** What taking in some elements does to an array, if they fit behind what is there. */
  predicate Fills(max: nat, before: seq<Value>, vs: seq<Value>) {
    |before| + |vs| <= max
  }

  lemma {:induction false} RunOnto(r: Desc, j: nat, vs: seq<Value>, before: seq<Value>, run: Bytes, t: Bytes,
                                   was: seq<Slot>, seen: set<nat>)
    requires DescOk(r) && j < |r.fields| == |was| && was[j] == Many(before)
    requires var f := r.fields[j];
             f.rule.Repeated? && Packable(f.kind) && HoldsAll(f.kind, vs) && |before| <= f.rule.max
    requires EncodePacked(r.fields[j].kind, vs) == Some(run) && |run| < TWO32
    ensures DecodeLoop(r, Tag(WT_STRING, r.fields[j].tag) + Prefixed(run) + t, was, seen) ==
            if Fills(r.fields[j].rule.max, before, vs)
            then DecodeLoop(r, t, was[j := Many(before + vs)], seen + {j}) else None
  {
    var f := r.fields[j];
    if Fills(f.rule.max, before, vs) {
      PackedBack(f.kind, f.rule.max, vs, run, before);
      assert Put(r, was, j, Many(before + vs)) == was[j := Many(before + vs)];
    } else {
      PackedFull(f.kind, f.rule.max, vs, run, before);
    }
    ReadPrefixedBack(run, t);
    LoopKnown(r, j, WT_STRING, Prefixed(run) + t, was, seen);
    assert Tag(WT_STRING, f.tag) + Prefixed(run) + t == Tag(WT_STRING, f.tag) + (Prefixed(run) + t);
  }

  lemma {:induction false} NotString(k: Kind)
    requires Packable(k)
    ensures WireType(k) != WT_STRING
  {}

  lemma {:induction false} SingleSlot(f: Field, v: Value, before: seq<Value>, vb: Bytes, t: Bytes)
    requires f.rule.Repeated? && Packable(f.kind) && KindOk(f.kind) && Holds(f.kind, v)
    requires EncodeScalar(f.kind, v) == Some(vb) && |vb| < TWO32
    ensures DecodeSlot(f, WireType(f.kind), vb + t, Many(before)) ==
            if Fills(f.rule.max, before, [v]) then Parsed(Many(before + [v]), t) else Bad
  {
    NotString(f.kind);
    ScalarBack(f.kind, v, vb, t);
  }

  /** One element is appended, also to an array whose elements are otherwise packed. */
  lemma {:induction false} SingleOnto(r: Desc, j: nat, v: Value, before: seq<Value>, vb: Bytes, t: Bytes,
                                      was: seq<Slot>, seen: set<nat>)
    requires DescOk(r) && j < |r.fields| == |was| && was[j] == Many(before)
    requires var f := r.fields[j];
             f.rule.Repeated? && Packable(f.kind) && Holds(f.kind, v) && |before| <= f.rule.max
    requires EncodeScalar(r.fields[j].kind, v) == Some(vb) && |vb| < TWO32
    ensures DecodeLoop(r, FieldTag(r.fields[j]) + vb + t, was, seen) ==
            if Fills(r.fields[j].rule.max, before, [v])
            then DecodeLoop(r, t, was[j := Many(before + [v])], seen + {j}) else None
  {
    var f := r.fields[j];
    SingleSlot(f, v, before, vb, t);
    LoopKnown(r, j, WireType(f.kind), vb + t, was, seen);
    assert FieldTag(f) + vb + t == FieldTag(f) + (vb + t);
    assert Put(r, was, j, Many(before + [v])) == was[j := Many(before + [v])];
  }

  lemma {:induction false} ChunkOnto(r: Desc, j: nat, c: Chunk, before: seq<Value>, b: Bytes, t: Bytes,
                                     was: seq<Slot>, seen: set<nat>)
    requires DescOk(r) && j < |r.fields| == |was| && was[j] == Many(before)
    requires var f := r.fields[j];
             f.rule.Repeated? && Packable(f.kind) && HoldsAll(f.kind, ChunkValues(c)) && |before| <= f.rule.max
    requires ChunkBytes(r.fields[j], c) == Some(b) && |b| < TWO32
    ensures DecodeLoop(r, b + t, was, seen) ==
            if Fills(r.fields[j].rule.max, before, ChunkValues(c))
            then DecodeLoop(r, t, was[j := Many(before + ChunkValues(c))], seen + {j}) else None
  {
    var f := r.fields[j];
    match c
    case Single(v) =>
      assert Holds(f.kind, ChunkValues(c)[0]);
      SingleOnto(r, j, v, before, EncodeScalar(f.kind, v).value, t, was, seen);
    case Run(vs) =>
      RunOnto(r, j, vs, before, EncodePacked(f.kind, vs).value, t, was, seen);
  }

  /** Reading `a` appends these elements to the array of field `j`, or fails for lack of room. */
  ghost predicate Appends(r: Desc, j: nat, before: seq<Value>, vs: seq<Value>, a: Bytes, t: Bytes, was: seq<Slot>,
                          seen: set<nat>, after: set<nat>) {
    && j < |r.fields| == |was| && r.fields[j].rule.Repeated?
    && DecodeLoop(r, a + t, was, seen) ==
       if Fills(r.fields[j].rule.max, before, vs) then DecodeLoop(r, t, was[j := Many(before + vs)], after) else None
  }

  lemma {:induction false} AppendsTwice(r: Desc, j: nat, before: seq<Value>, vs: seq<Value>, ws: seq<Value>,
                                        head: Bytes, tail: Bytes, t: Bytes, was: seq<Slot>, seen: set<nat>,
                                        after: set<nat>)
    requires Appends(r, j, before, vs, head, tail + t, was, seen, after)
    requires Fills(r.fields[j].rule.max, before, vs) ==>
               Appends(r, j, before + vs, ws, tail, t, was[j := Many(before + vs)], after, after)
    ensures Appends(r, j, before, vs + ws, head + tail, t, was, seen, after)
  {
    assert head + tail + t == head + (tail + t);
    assert before + vs + ws == before + (vs + ws);
    assert was[j := Many(before + vs)][j := Many(before + vs + ws)] == was[j := Many(before + (vs + ws))];
  }

  /**
    An array of a packable kind: any mix of packed runs and single elements appends all of them, in order, to
    what was there, exactly if there is room.
   */
  lemma {:induction false} ChunksOnto(r: Desc, j: nat, cs: seq<Chunk>, before: seq<Value>, b: Bytes, t: Bytes,
                                      was: seq<Slot>, seen: set<nat>)
    requires DescOk(r) && j < |r.fields| == |was| && was[j] == Many(before)
    requires var f := r.fields[j];
             f.rule.Repeated? && Packable(f.kind) && ChunksHold(f.kind, cs) && |before| <= f.rule.max
    requires AllBytes(r.fields[j], cs) == Some(b) && |b| < TWO32
    ensures Appends(r, j, before, AllValues(cs), b, t, was, seen, if cs == [] then seen else seen + {j})
    decreases |cs|
  {
    if cs == [] {
      assert b + t == t && before + [] == before && was[j := Many(before)] == was;
    } else {
      var f := r.fields[j];
      var head, tail := ChunkBytes(f, cs[0]).value, AllBytes(f, cs[1..]).value;
      var vs := ChunkValues(cs[0]);
      ChunkOnto(r, j, cs[0], before, head, tail + t, was, seen);
      if Fills(f.rule.max, before, vs) {
        ChunksOnto(r, j, cs[1..], before + vs, tail, t, was[j := Many(before + vs)], seen + {j});
        assert seen + {j} + {j} == seen + {j};
      }
      AppendsTwice(r, j, before, vs, AllValues(cs[1..]), head, tail, t, was, seen, seen + {j});
    }
  }

  lemma {:induction false} OneField(f: Field)
    requires DescOk(Desc([f])) && f.rule.Repeated?
    ensures Defaults(Desc([f])) == [Many([])] && !Checked(Desc([f]), 0)
  {
    assert Defaults(Desc([f]))[0] == DefaultSlot(f);
  }

  /** A message of one such array decodes to exactly the elements sent, however they were sent. */
  lemma {:induction false} ChunksDecode(f: Field, cs: seq<Chunk>, b: Bytes)
    requires DescOk(Desc([f])) && f.rule.Repeated? && Packable(f.kind) && ChunksHold(f.kind, cs)
    requires AllBytes(f, cs) == Some(b) && |b| < TWO32
    ensures Decode(Desc([f]), b) == if |AllValues(cs)| <= f.rule.max then Some([Many(AllValues(cs))]) else None
  {
    var r := Desc([f]);
    OneField(f);
    ChunksOnto(r, 0, cs, [], b, [], Defaults(r), {});
    assert b + [] == b && [] + AllValues(cs) == AllValues(cs);
    assert Defaults(r)[0 := Many(AllValues(cs))] == [Many(AllValues(cs))];
  }

  // ----- structs that already hold a message -----

  /** The value is laid out as its kind says. */
  predicate Shape(k: Kind, v: Value)
    decreases k, 0
  {
    k.Submessage? ==>
      v.Message? && |v.slots| == |k.desc.fields|
      && forall i :: 0 <= i < |v.slots| ==> ShapeSlot(k.desc.fields[i], v.slots[i])
  }

  predicate ShapeSlot(f: Field, s: Slot)
    decreases f, 0
  {
    match f.rule
    case Required => s.One? && Shape(f.kind, s.value)
    case Singular => s.One? && Shape(f.kind, s.value)
    case Repeated(max) => s.Many? && |s.values| <= max
    case _ => s.Maybe? && (s.choice.Some? ==> Shape(f.kind, s.choice.value))
  }

  predicate ShapeAll(r: Desc, slots: seq<Slot>) {
    |slots| == |r.fields| && forall i :: 0 <= i < |slots| ==> ShapeSlot(r.fields[i], slots[i])
  }

  /** What a value becomes when another one arrives for it; none if a text in it is unterminated. */
  function MergeValue(k: Kind, was: Value, v: Value): Option<Value>
    decreases k, 0
  {
    if !k.Submessage? then
      if Unterminated(k, v) then None else Some(v)
    else if was.Message? && v.Message? && |was.slots| == |v.slots| == |k.desc.fields| then
      match MergeFields(k.desc, k.desc, v.slots, 0, was.slots)
      case None => None
      case Some(slots) => Some(Message(slots))
    else
      None
  }

  function MergeSlot(f: Field, was: Slot, s: Slot): Option<Slot>
    decreases f, 0
  {
    match (was, s)
    case (One(w), One(v)) =>
      (match MergeValue(f.kind, w, v)
       case None => None
       case Some(x) => Some(One(x)))
    case (Maybe(w), Maybe(Some(v))) =>
      (match MergeValue(f.kind, if w.Some? then w.value else Default(f.kind), v)
       case None => None
       case Some(x) => Some(Maybe(Some(x))))
    case (Many(ws), Many(vs)) =>
      if f.rule.Repeated? && TerminatedSlot(f, s) && Fills(f.rule.max, ws, vs) then Some(Many(ws + vs)) else None
    case _ => None
  }

  /** The writer's i-th field merged into the reader's struct; left out or unknown, it changes nothing. */
  function MergeStep(r: Desc, d: Desc, slots: seq<Slot>, i: nat, was: seq<Slot>): (m: Option<seq<Slot>>)
    requires i < |slots| == |d.fields| && |was| == |r.fields|
    ensures m.Some? ==> |m.value| == |r.fields|
    decreases r, 0, 0
  {
    if !Known(r, d.fields[i]) || IsDefault(d.fields[i], slots[i]) then
      Some(was)
    else
      var j := Find(r, d.fields[i].tag).value;
      match MergeSlot(r.fields[j], was[j], slots[i])
      case None => None
      case Some(s) => Some(Put(r, was, j, s))
  }

  /** All fields from the i-th on. */
  function MergeFields(r: Desc, d: Desc, slots: seq<Slot>, i: nat, was: seq<Slot>): (m: Option<seq<Slot>>)
    requires i <= |slots| == |d.fields| && |was| == |r.fields|
    ensures m.Some? ==> |m.value| == |r.fields|
    decreases r, 1, |slots| - i
  {
    if i == |slots| then Some(was)
    else
      match MergeStep(r, d, slots, i, was)
      case None => None
      case Some(now) => MergeFields(r, d, slots, i + 1, now)
  }

  // ----- what merging keeps -----

  lemma {:induction false} DefaultShape(k: Kind)
    ensures Shape(k, Default(k))
    decreases k, 0
  {
    if k.Submessage? {
      forall i | 0 <= i < |k.desc.fields|
        ensures ShapeSlot(k.desc.fields[i], Defaults(k.desc)[i])
      {
        DefaultSlotShape(k.desc.fields[i]);
      }
    }
  }

  lemma {:induction false} DefaultSlotShape(f: Field)
    ensures ShapeSlot(f, DefaultSlot(f))
    decreases f, 0
  {
    DefaultShape(f.kind);
  }

  lemma {:induction false} MergedShape(k: Kind, was: Value, v: Value)
    requires Shape(k, was)
    ensures MergeValue(k, was, v).Some? ==> Shape(k, MergeValue(k, was, v).value)
    decreases k, 0
  {
    if k.Submessage? && MergeValue(k, was, v).Some? {
      MergedAll(k.desc, k.desc, v.slots, 0, was.slots);
    }
  }

  lemma {:induction false} MergedSlotShape(f: Field, was: Slot, s: Slot)
    requires ShapeSlot(f, was)
    ensures MergeSlot(f, was, s).Some? ==> ShapeSlot(f, MergeSlot(f, was, s).value)
    decreases f, 0
  {
    if was.One? && s.One? {
      MergedShape(f.kind, was.value, s.value);
    } else if was.Maybe? && s.Maybe? && s.choice.Some? {
      DefaultShape(f.kind);
      MergedShape(f.kind, if was.choice.Some? then was.choice.value else Default(f.kind), s.choice.value);
    }
  }

  lemma {:induction false} PutShape(r: Desc, was: seq<Slot>, j: nat, s: Slot)
    requires ShapeAll(r, was) && j < |was| && ShapeSlot(r.fields[j], s)
    ensures ShapeAll(r, Put(r, was, j, s))
  {}

  lemma {:induction false} StepShape(r: Desc, d: Desc, slots: seq<Slot>, i: nat, was: seq<Slot>)
    requires i < |slots| == |d.fields| && ShapeAll(r, was)
    ensures MergeStep(r, d, slots, i, was).Some? ==> ShapeAll(r, MergeStep(r, d, slots, i, was).value)
    decreases r, 0, 0
  {
    if Known(r, d.fields[i]) && !IsDefault(d.fields[i], slots[i]) {
      var j := Find(r, d.fields[i].tag).value;
      MergedSlotShape(r.fields[j], was[j], slots[i]);
      if MergeSlot(r.fields[j], was[j], slots[i]).Some? {
        PutShape(r, was, j, MergeSlot(r.fields[j], was[j], slots[i]).value);
      }
    }
  }

  lemma {:induction false} MergedAll(r: Desc, d: Desc, slots: seq<Slot>, i: nat, was: seq<Slot>)
    requires i <= |slots| == |d.fields| && ShapeAll(r, was)
    ensures MergeFields(r, d, slots, i, was).Some? ==> ShapeAll(r, MergeFields(r, d, slots, i, was).value)
    decreases r, 1, |slots| - i
  {
    if i < |slots| && MergeStep(r, d, slots, i, was).Some? {
      StepShape(r, d, slots, i, was);
      MergedAll(r, d, slots, i + 1, MergeStep(r, d, slots, i, was).value);
    }
  }

  /** Storing a member of a union leaves it the only one there, and other fields alone. */
  lemma {:induction false} UnionHoldsOne(d: Desc, slots: seq<Slot>, i: nat, s: Slot)
    requires |slots| == |d.fields| && i < |slots| && Exclusive(d, slots)
    ensures Exclusive(d, Put(d, slots, i, s)) && Put(d, slots, i, s)[i] == s
    ensures forall j :: 0 <= j < |slots| && j != i ==>
              Put(d, slots, i, s)[j] == if SameUnion(d.fields[i], d.fields[j]) then Maybe(None) else slots[j]
  {
    var now := Put(d, slots, i, s);
    forall a, b | 0 <= a < |slots| && 0 <= b < |slots| && a != b && SameUnion(d.fields[a], d.fields[b])
      ensures now[a] == Maybe(None) || now[b] == Maybe(None)
    {
      assert slots[a] == Maybe(None) || slots[b] == Maybe(None);
    }
  }

  // ----- decoding is merging -----

  /** Reading what was written for a value, on top of another one, merges it. */
  predicate ValueMerges(k: Kind, was: Value, v: Value, b: Bytes, rest: Bytes) {
    DecodeValue(k, b + rest, was) ==
    match MergeValue(k, was, v)
    case None => Bad
    case Some(x) => Parsed(x, rest)
  }

  /** Reading what was written for one field merges it into the struct. */
  ghost predicate SlotMerges(r: Desc, j: nat, s: Slot, a: Bytes, t: Bytes, was: seq<Slot>, seen: set<nat>) {
    && j < |r.fields| == |was|
    && DecodeLoop(r, a + t, was, seen) ==
       match MergeSlot(r.fields[j], was[j], s)
       case None => None
       case Some(x) => DecodeLoop(r, t, Put(r, was, j, x), seen + {j})
  }

  lemma {:induction false} TaggedOnto(r: Desc, j: nat, v: Value, s: Slot, vb: Bytes, t: Bytes, was: seq<Slot>,
                                      seen: set<nat>)
    requires DescOk(r) && j < |r.fields| == |was| && ShapeSlot(r.fields[j], was[j]) && FitsSlot(r.fields[j], s)
    requires s == One(v) || s == Maybe(Some(v))
    requires was[j].One? ==> ValueMerges(r.fields[j].kind, was[j].value, v, vb, t)
    requires was[j].Maybe? ==>
               ValueMerges(r.fields[j].kind,
                           if was[j].choice.Some? then was[j].choice.value else Default(r.fields[j].kind), v, vb, t)
    ensures SlotMerges(r, j, s, FieldTag(r.fields[j]) + vb, t, was, seen)
  {
    var f := r.fields[j];
    LoopKnown(r, j, WireType(f.kind), vb + t, was, seen);
    assert FieldTag(f) + vb + t == FieldTag(f) + (vb + t);
  }

  lemma {:induction false} PackedOnto(r: Desc, j: nat, vs: seq<Value>, a: Bytes, t: Bytes, was: seq<Slot>,
                                      seen: set<nat>)
    requires DescOk(r) && j < |r.fields| == |was| && was[j].Many? && ShapeSlot(r.fields[j], was[j])
    requires FitsSlot(r.fields[j], Many(vs)) && vs != [] && Packable(r.fields[j].kind)
    requires EncodeSlot(r.fields[j], Many(vs)) == Some(a) && |a| < TWO32
    ensures SlotMerges(r, j, Many(vs), a, t, was, seen)
  {
    var f := r.fields[j];
    RunOnto(r, j, vs, was[j].values, EncodePacked(f.kind, vs).value, t, was, seen);
    PutArray(r, was, j, was[j].values + vs);
    NoTexts(f, vs);
  }

  lemma {:induction false} NoTexts(f: Field, vs: seq<Value>)
    requires Packable(f.kind)
    ensures TerminatedSlot(f, Many(vs))
  {}

  lemma {:induction false} PutArray(r: Desc, was: seq<Slot>, j: nat, vs: seq<Value>)
    requires j < |r.fields| == |was| && r.fields[j].rule.Repeated?
    ensures Put(r, was, j, Many(vs)) == was[j := Many(vs)]
  {}

  /** Elements with a tag each: all of them are taken in, or one is unterminated or one too many. */
  lemma {:induction false} UnpackedOnto(r: Desc, j: nat, vs: seq<Value>, before: seq<Value>, b: Bytes, t: Bytes,
                                        was: seq<Slot>, seen: set<nat>)
    requires DescOk(r) && j < |r.fields| == |was| && was[j] == Many(before) && vs != []
    requires var f := r.fields[j];
             f.rule.Repeated? && !Packable(f.kind) && FitsSlot(f, Many(vs)) && |before| <= f.rule.max
    requires EncodeUnpacked(r.fields[j], vs) == Some(b) && |b| < TWO32
    ensures DecodeLoop(r, b + t, was, seen) ==
            if TerminatedSlot(r.fields[j], Many(vs)) && Fills(r.fields[j].rule.max, before, vs)
            then DecodeLoop(r, t, was[j := Many(before + vs)], seen + {j}) else None
    decreases |vs|
  {
    var f := r.fields[j];
    if Fills(f.rule.max, before, vs) {
      UnpackedTaken(r, j, vs, before, b, t, was, seen);
    } else if |before| == f.rule.max {
      NoRoom(r, j, vs, before, b, t, was, seen);
    } else {
      FirstTaken(r, j, vs, before, b, t, was, seen);
      TerminatedTail(f, vs);
      UnpackedOnto(r, j, vs[1..], before + [vs[0]], EncodeUnpacked(f, vs[1..]).value, t,
                   was[j := Many(before + [vs[0]])], seen + {j});
    }
  }

  lemma {:induction false} NoRoom(r: Desc, j: nat, vs: seq<Value>, before: seq<Value>, b: Bytes, t: Bytes,
                                  was: seq<Slot>, seen: set<nat>)
    requires DescOk(r) && j < |r.fields| == |was| && was[j] == Many(before) && vs != []
    requires var f := r.fields[j]; f.rule.Repeated? && !Packable(f.kind) && |before| == f.rule.max
    requires EncodeUnpacked(r.fields[j], vs) == Some(b)
    ensures DecodeLoop(r, b + t, was, seen) == None
  {
    var f := r.fields[j];
    FirstOf(f, vs, b);
    var vb, tail := EncodeValue(f.kind, vs[0]).value, EncodeUnpacked(f, vs[1..]).value;
    FullSlot(f, WireType(f.kind), before, vb + (tail + t));
    LoopKnown(r, j, WireType(f.kind), vb + (tail + t), was, seen);
    Behind(FieldTag(f), vb, tail, t);
  }

  lemma {:induction false} FullSlot(f: Field, wt: nat, before: seq<Value>, s: Bytes)
    requires f.rule.Repeated? && !Packable(f.kind) && |before| == f.rule.max
    ensures DecodeSlot(f, wt, s, Many(before)) == Bad
  {}

  lemma {:induction false} Behind(a: Bytes, b: Bytes, c: Bytes, t: Bytes)
    ensures a + b + c + t == a + (b + (c + t))
  {}

  lemma {:induction false} ManyOnto(r: Desc, j: nat, vs: seq<Value>, a: Bytes, t: Bytes, was: seq<Slot>,
                                    seen: set<nat>)
    requires DescOk(r) && j < |r.fields| == |was| && ShapeSlot(r.fields[j], was[j])
    requires FitsSlot(r.fields[j], Many(vs)) && vs != []
    requires EncodeSlot(r.fields[j], Many(vs)) == Some(a) && |a| < TWO32
    ensures SlotMerges(r, j, Many(vs), a, t, was, seen)
  {
    var f := r.fields[j];
    if Packable(f.kind) {
      PackedOnto(r, j, vs, a, t, was, seen);
    } else {
      UnpackedOnto(r, j, vs, was[j].values, a, t, was, seen);
      PutArray(r, was, j, was[j].values + vs);
    }
  }

  lemma {:induction false} ValueOnto(k: Kind, was: Value, v: Value, b: Bytes, rest: Bytes)
    requires KindOk(k) && Holds(k, v) && Shape(k, was) && EncodeValue(k, v) == Some(b) && |b| < TWO32
    ensures ValueMerges(k, was, v, b, rest)
    decreases k, 0
  {
    if k.Submessage? {
      var d, sub := k.desc, EncodeFields(k.desc, v.slots, 0).value;
      ReadPrefixedBack(sub, rest);
      MessageOnto(d, d, v.slots, sub, was.slots);
      OwnReader(d, v.slots);
    } else {
      ScalarBack(k, v, b, rest);
    }
  }

  /** One field that is written and known, on top of what the struct has there. */
  lemma {:induction false} SlotOnto(r: Desc, j: nat, s: Slot, a: Bytes, t: Bytes, was: seq<Slot>, seen: set<nat>)
    requires DescOk(r) && j < |r.fields| == |was| && ShapeSlot(r.fields[j], was[j]) && FitsSlot(r.fields[j], s)
    requires EncodeSlot(r.fields[j], s) == Some(a) && a != [] && |a| < TWO32
    ensures SlotMerges(r, j, s, a, t, was, seen)
    decreases r.fields[j], 3
  {
    var f := r.fields[j];
    if s.Many? {
      ManyOnto(r, j, s.values, a, t, was, seen);
    } else {
      var v := if s.One? then s.value else s.choice.value;
      var vb := EncodeValue(f.kind, v).value;
      DefaultShape(f.kind);
      var w := if was[j].One? then was[j].value
               else if was[j].choice.Some? then was[j].choice.value else Default(f.kind);
      ValueOnto(f.kind, w, v, vb, t);
      TaggedOnto(r, j, v, s, vb, t, was, seen);
    }
  }

  /** Which required fields have been met once the writer's i-th field has gone by. */
  predicate SeenOne(r: Desc, d: Desc, seen: set<nat>, i: nat, after: set<nat>) {
    forall j :: 0 <= j < |r.fields| && r.fields[j].rule.Required? ==>
      (j in after <==> j in seen || Find(d, r.fields[j].tag) == Some(i))
  }

  /** And all from the i-th on. */
  predicate SeenAfter(r: Desc, d: Desc, seen: set<nat>, i: nat, done: set<nat>) {
    forall j :: 0 <= j < |r.fields| && r.fields[j].rule.Required? ==>
      (j in done <==> j in seen || (Known(d, r.fields[j]) && Find(d, r.fields[j].tag).value >= i))
  }

  lemma {:induction false} WrittenOrNot(f: Field, s: Slot, a: Bytes)
    requires FitsSlot(f, s) && EncodeSlot(f, s) == Some(a)
    ensures a == [] <==> IsDefault(f, s)
  {
    if a == [] {
      WrittenNonEmpty(f, s);
    }
  }

  lemma {:induction false} SeenIs(r: Desc, d: Desc, slots: seq<Slot>, i: nat, seen: set<nat>)
    requires DescOk(d) && DescOk(r) && Agree(r, d) && Fits(d, slots) && i < |slots|
    ensures var f := d.fields[i];
            SeenOne(r, d, seen, i,
                    if !Known(r, f) || IsDefault(f, slots[i]) then seen else seen + {Find(r, f.tag).value})
  {
    forall j | 0 <= j < |r.fields|
      ensures Find(d, r.fields[j].tag) == Some(i) <==> Find(r, d.fields[i].tag) == Some(j)
      ensures Find(d, r.fields[j].tag) == Some(i) ==> r.fields[j] == d.fields[i]
    {
      SourceOf(r, d, i, j);
    }
  }

  /** Reading from here goes on with the rest of the input and this struct, or fails. */
  ghost predicate GoesOn(r: Desc, s: Bytes, was: seq<Slot>, seen: set<nat>, next: Option<seq<Slot>>, t: Bytes,
                         after: set<nat>) {
    && |was| == |r.fields| && (next.Some? ==> |next.value| == |r.fields|)
    && DecodeLoop(r, s, was, seen) == if next.None? then None else DecodeLoop(r, t, next.value, after)
  }

  lemma {:induction false} FieldOnto(r: Desc, d: Desc, slots: seq<Slot>, i: nat, a: Bytes, t: Bytes, was: seq<Slot>,
                                     seen: set<nat>)
      returns (after: set<nat>)
    requires DescOk(d) && DescOk(r) && Agree(r, d) && Fits(d, slots) && i < |slots| && ShapeAll(r, was)
    requires EncodeSlot(d.fields[i], slots[i]) == Some(a) && |a| < TWO32
    ensures GoesOn(r, a + t, was, seen, MergeStep(r, d, slots, i, was), t, after) && SeenOne(r, d, seen, i, after)
    decreases r, 4
  {
    var f := d.fields[i];
    after := seen;
    SeenIs(r, d, slots, i, seen);
    WrittenOrNot(f, slots[i], a);
    if !Known(r, f) {
      SlotSkipped(r, f, slots[i], a, t, was, seen);
    } else if a == [] {
      assert a + t == t;
    } else {
      var j := Find(r, f.tag).value;
      after := seen + {j};
      SourceOf(r, d, i, j);
      SlotOnto(r, j, slots[i], a, t, was, seen);
    }
  }

  lemma {:induction false} SeenChain(r: Desc, d: Desc, seen: set<nat>, i: nat, after: set<nat>, done: set<nat>)
    requires SeenOne(r, d, seen, i, after) && SeenAfter(r, d, after, i + 1, done)
    ensures SeenAfter(r, d, seen, i, done)
  {}

  lemma {:induction false} SplitFields(d: Desc, slots: seq<Slot>, i: nat, b: Bytes) returns (a: Bytes, tail: Bytes)
    requires i < |slots| == |d.fields| && EncodeFields(d, slots, i) == Some(b)
    ensures EncodeSlot(d.fields[i], slots[i]) == Some(a) && EncodeFields(d, slots, i + 1) == Some(tail) && b == a + tail
    ensures |a| <= |b| && |tail| <= |b|
  {
    a, tail := EncodeSlot(d.fields[i], slots[i]).value, EncodeFields(d, slots, i + 1).value;
  }

  lemma {:induction false} MergeUnfolds(r: Desc, d: Desc, slots: seq<Slot>, i: nat, was: seq<Slot>)
    requires i < |slots| == |d.fields| && |was| == |r.fields|
    ensures var next := MergeStep(r, d, slots, i, was);
            MergeFields(r, d, slots, i, was) ==
            if next.None? then None else MergeFields(r, d, slots, i + 1, next.value)
  {}

  lemma {:induction false} GoesChain(r: Desc, a: Bytes, tail: Bytes, t: Bytes, was: seq<Slot>, seen: set<nat>,
                                     next: Option<seq<Slot>>, after: set<nat>, last: Option<seq<Slot>>, done: set<nat>)
    requires GoesOn(r, a + (tail + t), was, seen, next, tail + t, after)
    requires if next.None? then last.None? else GoesOn(r, tail + t, next.value, after, last, t, done)
    ensures GoesOn(r, (a + tail) + t, was, seen, last, t, done)
  {
    assert (a + tail) + t == a + (tail + t);
  }

  lemma {:induction false} FieldsOnto(r: Desc, d: Desc, slots: seq<Slot>, i: nat, b: Bytes, t: Bytes, was: seq<Slot>,
                                      seen: set<nat>)
      returns (done: set<nat>)
    requires DescOk(d) && DescOk(r) && Agree(r, d) && Fits(d, slots) && i <= |slots| && ShapeAll(r, was)
    requires EncodeFields(d, slots, i) == Some(b) && |b| < TWO32
    ensures GoesOn(r, b + t, was, seen, MergeFields(r, d, slots, i, was), t, done)
    ensures MergeFields(r, d, slots, i, was).Some? ==> SeenAfter(r, d, seen, i, done)
    decreases r, 5, |slots| - i
  {
    done := seen;
    if i == |slots| {
      assert b + t == t;
    } else {
      var a, tail := SplitFields(d, slots, i, b);
      var after := FieldOnto(r, d, slots, i, a, tail + t, was, seen);
      MergeUnfolds(r, d, slots, i, was);
      var next := MergeStep(r, d, slots, i, was);
      if next.Some? {
        StepShape(r, d, slots, i, was);
        done := FieldsOnto(r, d, slots, i + 1, tail, t, next.value, after);
        if MergeFields(r, d, slots, i + 1, next.value).Some? {
          SeenChain(r, d, seen, i, after, done);
        }
      }
      GoesChain(r, a, tail, t, was, seen, next, after, MergeFields(r, d, slots, i, was), done);
    }
  }

  lemma {:induction false} SeenSupplied(r: Desc, d: Desc, done: set<nat>)
    requires SeenAfter(r, d, {}, 0, done)
    ensures AllSeen(r, done) <==> Supplies(d, r)
  {
    forall j | 0 <= j < |r.fields| && Checked(r, j)
      ensures j in done <==> Known(d, r.fields[j])
    {}
  }

  /** Decoding any written message into any struct merges it, field by field. */
  lemma {:induction false} MessageOnto(r: Desc, d: Desc, slots: seq<Slot>, b: Bytes, was: seq<Slot>)
    requires DescOk(d) && DescOk(r) && Agree(r, d) && Fits(d, slots) && ShapeAll(r, was)
    requires EncodeFields(d, slots, 0) == Some(b) && |b| < TWO32
    ensures DecodeNoinit(r, b, was) == if Supplies(d, r) then MergeFields(r, d, slots, 0, was) else None
    decreases r, 6
  {
    var done := FieldsOnto(r, d, slots, 0, b, [], was, {});
    assert b + [] == b;
    if MergeFields(r, d, slots, 0, was).Some? {
      SeenSupplied(r, d, done);
    }
  }

  lemma {:induction false} DefaultsShape(d: Desc)
    ensures ShapeAll(d, Defaults(d))
  {
    forall i | 0 <= i < |d.fields|
      ensures ShapeSlot(d.fields[i], Defaults(d)[i])
    {
      DefaultSlotShape(d.fields[i]);
    }
  }

  lemma {:induction false} SeenStays(d: Desc, seen: set<nat>, done: set<nat>)
    requires SeenAfter(d, d, seen, 0, done) && AllSeen(d, seen)
    ensures AllSeen(d, done)
  {}

  /** Two messages written one behind the other decode as the first, with the second merged into it. */
  lemma {:induction false} ConcatenationMerges(d: Desc, first: seq<Slot>, second: seq<Slot>, a: Bytes, b: Bytes)
    requires DescOk(d) && Fits(d, first) && Fits(d, second)
    requires Encode(d, first) == Some(a) && Encode(d, second) == Some(b) && |a| < TWO32 && |b| < TWO32
    ensures Decode(d, a + b) ==
            match MergeFields(d, d, first, 0, Defaults(d))
            case None => None
            case Some(w) => MergeFields(d, d, second, 0, w)
  {
    DefaultsShape(d);
    OwnReader(d, first);
    var seen := FieldsOnto(d, d, first, 0, a, b, Defaults(d), {});
    var w := MergeFields(d, d, first, 0, Defaults(d));
    if w.Some? {
      MergedAll(d, d, first, 0, Defaults(d));
      SeenSupplied(d, d, seen);
      var done := FieldsOnto(d, d, second, 0, b, [], w.value, seen);
      assert b + [] == b;
      if MergeFields(d, d, second, 0, w.value).Some? {
        SeenStays(d, seen, done);
      }
    }
  }
}
