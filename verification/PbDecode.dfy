/**
  The decoder (pb_decode.c): single values, the loop over the fields of a message, and its bitmap of
  required fields, each shown to do to a stream what the functions of the wire format say.
 */
module PbDecode {
  import opened Wrappers
  import opened Coding
  import opened PbCommon
  import opened PbStream
  import opened Proto
  import opened ProtoWire
  import opened SeenBits

  // ----- single values -----

  /** Storing a number in a field of some size and reading it back. */
  function Clamp(n: int, size: nat): int {
    Cast(n % Span(size), Span(size))
  }

  lemma {:induction false} ClampKeeps(n: int, size: nat)
    requires WidthOk(size)
    ensures Clamp(n, size) == n <==> Signed(size, n)
  {
    if Signed(size, n) {
      Residue(n, if n < 0 then -1 else 0, Span(size));
    }
  }

  lemma {:induction false} Residue(n: int, q: int, m: nat)
    requires m > 0 && 0 <= n - q * m < m
    ensures n % m == n - q * m
  {
    var d := n / m - q;
    assert d * m == n - q * m - n % m by {
      assert d * m == n / m * m - q * m;
    }
    assert d >= 1 ==> d * m >= m;
    assert d <= -1 ==> d * m + m <= 0;
  }

  predicate Took(r: Parsed<Value>, ok: bool, v: Value, rest: Bytes) {
    match r
    case Bad => !ok
    case Parsed(w, s) => ok && v == w && rest == s
  }

  method DecodeSigned(stream: IStream, size: nat) returns (ok: bool, v: Value)
    requires stream.Valid() && WidthOk(size)
    modifies stream
    ensures stream.Valid() && stream.End() == old(stream.End())
    ensures Took(DecodeInt(size, old(stream.Rest())), ok, v, stream.Rest())
  {
    var value: nat;
    ok, value := stream.DecodeVarint();
    var svalue := if size == 8 then Cast(value, TWO64) else Cast(value, TWO32);
    v := Number(Clamp(svalue, size));
    ClampKeeps(svalue, size);
    if v.n != svalue {
      ok := false;
    }
  }

  method DecodeUnsigned(stream: IStream, size: nat) returns (ok: bool, v: Value)
    requires stream.Valid() && WidthOk(size)
    modifies stream
    ensures stream.Valid() && stream.End() == old(stream.End())
    ensures Took(DecodeUInt(size, old(stream.Rest())), ok, v, stream.Rest())
  {
    var value: nat;
    ok, value := stream.DecodeVarint();
    v := Number(value % Span(size));
    if v.n != value {
      ok := false;
    }
  }

  method DecodeZigZag(stream: IStream, size: nat) returns (ok: bool, v: Value)
    requires stream.Valid() && WidthOk(size)
    modifies stream
    ensures stream.Valid() && stream.End() == old(stream.End())
    ensures Took(DecodeSInt(size, old(stream.Rest())), ok, v, stream.Rest())
  {
    var value: nat;
    ok, value := stream.DecodeVarint();
    var n := if value % 2 == 1 then Complement(value / 2) else value / 2;
    v := Number(Clamp(n, size));
    ClampKeeps(n, size);
    if v.n != n {
      ok := false;
    }
  }

  /** All 64 bits inverted, read as a signed number. */
  function Complement(v: nat): (n: int)
    ensures v < TWO64 / 2 ==> n == -(v as int) - 1
  {
    Cast((TWO64 - 1 - v) % TWO64, TWO64)
  }

  method DecodeLittleEndian(stream: IStream, width: nat) returns (ok: bool, v: Value)
    requires stream.Valid()
    modifies stream
    ensures stream.Valid() && stream.End() == old(stream.End())
    ensures Took(DecodeFixed(width, old(stream.Rest())), ok, v, stream.Rest())
  {
    var bytes: Bytes;
    ok, bytes := stream.Read(width);
    var value: nat, i := 0, |bytes|;
    while i > 0
      invariant 0 <= i <= |bytes| && value == Unfixed(bytes[i..])
    {
      i := i - 1;
      assert bytes[i..][1..] == bytes[i + 1..];
      value := bytes[i] as nat + 256 * value;
    }
    assert bytes[0..] == bytes;
    v := Number(value);
  }

  method DecodeTruth(stream: IStream) returns (ok: bool, v: Value)
    requires stream.Valid()
    modifies stream
    ensures stream.Valid() && stream.End() == old(stream.End())
    ensures Took(DecodeBool(old(stream.Rest())), ok, v, stream.Rest())
  {
    var value: nat, eof: bool;
    ok, value, eof := stream.DecodeVarint32();
    v := Truth(value != 0);
  }

  /** A run of bytes into an array with room for `max`, of which a text needs one for its terminator. */
  method DecodeRun(stream: IStream, extra: nat, max: nat) returns (ok: bool, v: Value)
    requires stream.Valid()
    modifies stream
    ensures stream.Valid() && stream.End() == old(stream.End())
    ensures Took(DecodeRaw(old(stream.Rest()), len => len + extra <= max), ok, v, stream.Rest())
  {
    var size: nat, eof: bool;
    v := Raw([]);
    ok, size, eof := stream.DecodeVarint32();
    if !ok {
      return;
    }
    if size + extra > max {
      return false, v;
    }
    var bytes: Bytes;
    ok, bytes := stream.Read(size);
    v := Raw(bytes);
  }

  method DecodeBlock(stream: IStream, dataSize: nat) returns (ok: bool, v: Value)
    requires stream.Valid()
    modifies stream
    ensures stream.Valid() && stream.End() == old(stream.End())
    ensures Took(DecodeFixedLength(dataSize, old(stream.Rest())), ok, v, stream.Rest())
  {
    var size: nat, eof: bool;
    v := Raw([]);
    ok, size, eof := stream.DecodeVarint32();
    if !ok {
      return;
    }
    if size == 0 {
      return true, Raw(Zeros(dataSize));
    }
    if size != dataSize {
      return false, v;
    }
    var bytes: Bytes;
    ok, bytes := stream.Read(dataSize);
    v := Raw(bytes);
  }

  method DecodeBasic(stream: IStream, k: Kind) returns (ok: bool, v: Value)
    requires stream.Valid() && KindOk(k) && !k.Submessage?
    modifies stream
    ensures stream.Valid() && stream.End() == old(stream.End())
    ensures Took(DecodeScalar(k, old(stream.Rest())), ok, v, stream.Rest())
  {
    match k
    case Bool => ok, v := DecodeTruth(stream);
    case Int(size) => ok, v := DecodeSigned(stream, size);
    case UInt(size) => ok, v := DecodeUnsigned(stream, size);
    case SInt(size) => ok, v := DecodeZigZag(stream, size);
    case Fixed32 => ok, v := DecodeLittleEndian(stream, 4);
    case Fixed64 => ok, v := DecodeLittleEndian(stream, 8);
    case ByteArray(max) => ok, v := DecodeRun(stream, 0, max);
    case Text(max) => ok, v := DecodeRun(stream, 1, max);
    case FixedLength(size) => ok, v := DecodeBlock(stream, size);
  }

  // ----- default values -----

  method SetToDefault(f: Field) returns (s: Slot)
    ensures s == DefaultSlot(f)
    decreases f
  {
    match f.rule
    case Repeated(_) =>
      s := Many([]);
    case Optional =>
      s := Maybe(None);
    case Oneof(_) =>
      s := Maybe(None);
    case _ =>
      var v := DefaultOf(f.kind);
      s := One(v);
  }

  method DefaultOf(k: Kind) returns (v: Value)
    ensures v == Default(k)
    decreases k
  {
    match k
    case Bool => v := Truth(false);
    case ByteArray(_) => v := Raw([]);
    case Text(_) => v := Raw([]);
    case FixedLength(size) => v := Raw(Zeros(size));
    case Submessage(d) =>
      var slots := SetMessageToDefaults(d);
      v := Message(slots);
    case _ => v := Number(0);
  }

  method SetMessageToDefaults(d: Desc) returns (slots: seq<Slot>)
    ensures slots == Defaults(d)
    decreases d
  {
    var iter := new FieldIter(d);
    var any := iter.Begin();
    slots := [];
    if !any {
      return;
    }
    while true
      invariant fresh(iter) && iter.Valid() && iter.desc == d && iter.pos < |d.fields|
      invariant |slots| == iter.pos && slots == Defaults(d)[..iter.pos]
      decreases |d.fields| - iter.pos
    {
      var s := SetToDefault(d.fields[iter.pos]);
      slots := slots + [s];
      var more := iter.Next();
      if !more {
        return;
      }
    }
  }

  // ----- the bitmap of required fields -----

  predicate WordsOk(words: seq<nat>) {
    |words| == 2 && words[0] < TWO32 && words[1] < TWO32
  }

  predicate Marked(words: seq<nat>, i: nat)
    requires WordsOk(words) && i < MAX_REQUIRED_FIELDS
  {
    Bit(words[i / 32], i % 32)
  }

  method Mark(words: array<nat>, i: nat)
    requires WordsOk(words[..]) && i < MAX_REQUIRED_FIELDS
    modifies words
    ensures WordsOk(words[..])
    ensures forall j :: 0 <= j < MAX_REQUIRED_FIELDS ==> (Marked(words[..], j) <==> j == i || Marked(old(words[..]), j))
  {
    ghost var before := words[..];
    words[i / 32] := SetBit(words[i / 32], i % 32);
    assert words[..] == before[i / 32 := SetBit(before[i / 32], i % 32)];
    MarkedOk(before, i);
    forall j | 0 <= j < MAX_REQUIRED_FIELDS
      ensures Marked(words[..], j) <==> j == i || Marked(before, j)
    {
      MarkedAfter(before, i, j);
    }
  }

  lemma {:induction false} WordMarked(w: nat, i: nat, j: nat)
    requires w < TWO32 && i < 32 && j < 32
    ensures SetBit(w, i) < TWO32 && (Bit(SetBit(w, i), j) <==> j == i || Bit(w, j))
  {
    AllOnes();
    SetBitFits(w, i, 32);
    BitSetBit(w, i, j);
  }

  lemma {:induction false} MarkedOk(words: seq<nat>, i: nat)
    requires WordsOk(words) && i < MAX_REQUIRED_FIELDS
    ensures WordsOk(words[i / 32 := SetBit(words[i / 32], i % 32)])
  {
    WordMarked(words[i / 32], i % 32, 0);
  }

  lemma {:induction false} MarkedAfter(words: seq<nat>, i: nat, j: nat)
    requires WordsOk(words) && i < MAX_REQUIRED_FIELDS && j < MAX_REQUIRED_FIELDS
    requires WordsOk(words[i / 32 := SetBit(words[i / 32], i % 32)])
    ensures Marked(words[i / 32 := SetBit(words[i / 32], i % 32)], j) <==> j == i || Marked(words, j)
  {
    WordMarked(words[i / 32], i % 32, j % 32);
    if j / 32 == i / 32 {
      assert j % 32 == i % 32 <==> j == i;
    }
  }

  predicate FirstMarked(words: seq<nat>, count: nat)
    requires WordsOk(words) && count <= MAX_REQUIRED_FIELDS
  {
    forall j :: 0 <= j < count ==> Marked(words, j)
  }

  /** Whole words of ones first, and then the part of a word that is left. */
  method AllMarked(words: array<nat>, count: nat) returns (ok: bool)
    requires WordsOk(words[..]) && count <= MAX_REQUIRED_FIELDS
    requires forall j :: count <= j < MAX_REQUIRED_FIELDS ==> !Marked(words[..], j)
    ensures ok <==> FirstMarked(words[..], count)
  {
    CompareWord(words[0], if count < 32 then count else 32);
    CompareWord(words[1], if count < 32 then 0 else count - 32);
    WordsTell(words[..], count);
    for i := 0 to count / 32
      invariant forall k :: 0 <= k < i ==> words[k] == ALL_BITS
    {
      if words[i] != ALL_BITS {
        return false;
      }
    }
    if count % 32 != 0 && words[count / 32] != ALL_BITS / Pow(2, 32 - count % 32) {
      return false;
    }
    ok := true;
  }

  lemma {:induction false} WordsTell(words: seq<nat>, count: nat)
    requires WordsOk(words) && count <= MAX_REQUIRED_FIELDS
    requires forall j :: count <= j < MAX_REQUIRED_FIELDS ==> !Marked(words, j)
    ensures FirstMarked(words, count) <==>
            && LowestSet(words[0], if count < 32 then count else 32)
            && LowestSet(words[1], if count < 32 then 0 else count - 32)
  {
    forall j | 0 <= j < 32
      ensures Marked(words, j) == Bit(words[0], j) && Marked(words, j + 32) == Bit(words[1], j)
    {}
    if FirstMarked(words, count) {
      forall j | 0 <= j < 32
        ensures Bit(words[0], j) <==> j < if count < 32 then count else 32
        ensures Bit(words[1], j) <==> j < if count < 32 then 0 else count - 32
      {
        assert Marked(words, j) <==> j < count;
        assert Marked(words, j + 32) <==> j + 32 < count;
      }
    } else {
      var j :| 0 <= j < count && !Marked(words, j);
      assert j >= 32 ==> !Bit(words[1], j - 32);
    }
  }

  // ----- positions of fields and bits of the map -----

  lemma {:induction false} RequiredOrder(fields: seq<Field>, i: nat, j: nat)
    requires i < j <= |fields|
    ensures RequiredBefore(fields, i) <= RequiredBefore(fields, j)
    ensures fields[i].rule.Required? ==> RequiredBefore(fields, i) < RequiredBefore(fields, j)
  {
    if i + 1 < j {
      RequiredOrder(fields, i, j - 1);
    }
  }

  lemma {:induction false} RequiredAt(fields: seq<Field>, n: nat, b: nat) returns (i: nat)
    requires n <= |fields| && b < RequiredBefore(fields, n)
    ensures i < n && fields[i].rule.Required? && RequiredBefore(fields, i) == b
  {
    if fields[n - 1].rule.Required? && RequiredBefore(fields, n - 1) == b {
      i := n - 1;
    } else {
      i := RequiredAt(fields, n - 1, b);
    }
  }

  /** The bits stand for the required fields among those seen. */
  predicate Tracks(d: Desc, words: seq<nat>, seen: set<nat>) {
    && WordsOk(words)
    && (forall i :: 0 <= i < |d.fields| && Checked(d, i) ==>
          (Marked(words, RequiredBefore(d.fields, i)) <==> i in seen))
    && (forall b :: 0 <= b < MAX_REQUIRED_FIELDS && Marked(words, b) ==> b < RequiredBefore(d.fields, |d.fields|))
  }

  lemma {:induction false} TracksNothing(d: Desc)
    ensures Tracks(d, [0, 0], {})
  {
    forall b | 0 <= b < MAX_REQUIRED_FIELDS
      ensures !Marked([0, 0], b)
    {
      NoBits(b % 32);
    }
  }

  lemma {:induction false} TracksMark(d: Desc, before: seq<nat>, after: seq<nat>, seen: set<nat>, i: nat)
    requires Tracks(d, before, seen) && i < |d.fields| && Checked(d, i) && WordsOk(after)
    requires forall j :: 0 <= j < MAX_REQUIRED_FIELDS ==>
               (Marked(after, j) <==> j == RequiredBefore(d.fields, i) || Marked(before, j))
    ensures Tracks(d, after, seen + {i})
  {
    RequiredOrder(d.fields, i, |d.fields|);
    forall k | 0 <= k < |d.fields| && Checked(d, k)
      ensures Marked(after, RequiredBefore(d.fields, k)) <==> k in seen + {i}
    {
      if k < i {
        RequiredOrder(d.fields, k, i);
      } else if i < k {
        RequiredOrder(d.fields, i, k);
      }
    }
  }

  lemma {:induction false} TracksOther(d: Desc, words: seq<nat>, seen: set<nat>, i: nat)
    requires Tracks(d, words, seen) && i < |d.fields| && !Checked(d, i)
    ensures Tracks(d, words, seen + {i})
  {}

  /** All bits up to the number of required fields, but never more than the map holds. */
  lemma {:induction false} TracksAll(d: Desc, words: seq<nat>, seen: set<nat>, count: nat)
    requires Tracks(d, words, seen)
    requires count == var n := RequiredBefore(d.fields, |d.fields|);
                      if n > MAX_REQUIRED_FIELDS then MAX_REQUIRED_FIELDS else n
    ensures forall j :: count <= j < MAX_REQUIRED_FIELDS ==> !Marked(words, j)
    ensures FirstMarked(words, count) <==> AllSeen(d, seen)
  {
    if AllSeen(d, seen) {
      forall b | 0 <= b < count
        ensures Marked(words, b)
      {
        var i := RequiredAt(d.fields, |d.fields|, b);
        assert Checked(d, i);
      }
    } else {
      var i :| 0 <= i < |d.fields| && Checked(d, i) && i !in seen;
      RequiredOrder(d.fields, i, |d.fields|);
      assert !Marked(words, RequiredBefore(d.fields, i));
    }
  }

  /** From wherever the iterator stands to the last field, and that field as well if it is required. */
  method CountRequired(iter: FieldIter) returns (count: nat)
    requires iter.Valid()
    modifies iter
    ensures count == RequiredBefore(iter.desc.fields, |iter.desc.fields|)
  {
    var lastRequired: bool;
    while true
      invariant iter.Valid()
      decreases |iter.desc.fields| - iter.pos
    {
      count := iter.requiredFieldIndex;
      lastRequired := iter.desc.fields != [] && iter.desc.fields[iter.pos].rule.Required?;
      var more := iter.Next();
      if !more {
        break;
      }
    }
    if lastRequired {
      count := count + 1;
    }
  }

  method RequiredPresent(iter: FieldIter, words: array<nat>, ghost seen: set<nat>) returns (ok: bool)
    requires iter.Valid() && Tracks(iter.desc, words[..], seen)
    modifies iter
    ensures ok == AllSeen(iter.desc, seen)
  {
    var count := CountRequired(iter);
    if count > MAX_REQUIRED_FIELDS {
      count := MAX_REQUIRED_FIELDS;
    }
    ghost var bits := words[..];
    TracksAll(iter.desc, bits, seen, count);
    ok := AllMarked(words, count);
    assert words[..] == bits;
  }

  // ----- fields and messages -----

  predicate TookSlot(r: Parsed<Slot>, ok: bool, s: Slot, rest: Bytes) {
    match r
    case Bad => !ok
    case Parsed(w, t) => ok && s == w && rest == t
  }

  /** On a substream that holds nothing else; an element too many is an error, and so is a cut one. */
  method DecodePackedRun(sub: IStream, k: Kind, max: nat, vs: seq<Value>) returns (ok: bool, ws: seq<Value>)
    requires sub.Valid() && KindOk(k) && !k.Submessage?
    modifies sub
    ensures sub.Valid() && sub.End() == old(sub.End())
    ensures DecodePacked(k, max, old(sub.Rest()), vs) == if ok then Some(ws) else None
  {
    ws := vs;
    while sub.bytesLeft > 0 && |ws| < max
      invariant sub.Valid() && sub.End() == old(sub.End())
      invariant DecodePacked(k, max, old(sub.Rest()), vs) == DecodePacked(k, max, sub.Rest(), ws)
      decreases sub.bytesLeft
    {
      ghost var s := sub.Rest();
      var status: bool, v: Value;
      status, v := DecodeBasic(sub, k);
      if !status {
        return false, ws;
      }
      ws := ws + [v];
    }
    ok := sub.bytesLeft == 0;
  }

  method DecodePackedField(stream: IStream, k: Kind, max: nat, vs: seq<Value>) returns (ok: bool, s: Slot)
    requires stream.Valid() && KindOk(k) && !k.Submessage?
    modifies stream
    ensures stream.Valid() && stream.End() == old(stream.End())
    ensures TookSlot(DecodePackedSlot(k, max, old(stream.Rest()), vs), ok, s, stream.Rest())
  {
    s := Many(vs);
    var sub: IStream;
    ghost var end := stream.End();
    ok, sub := stream.MakeStringSubstream();
    if !ok {
      return;
    }
    var ws: seq<Value>;
    ok, ws := DecodePackedRun(sub, k, max, vs);
    s := Many(ws);
    var closed := stream.CloseStringSubstream(sub);
  }

  method DecodeValueOf(stream: IStream, k: Kind, was: Value) returns (ok: bool, v: Value)
    requires stream.Valid() && KindOk(k)
    modifies stream
    ensures stream.Valid() && stream.End() == old(stream.End())
    ensures Took(DecodeValue(k, old(stream.Rest()), was), ok, v, stream.Rest())
    decreases k
  {
    if k.Submessage? {
      ok, v := DecodeSubmessage(stream, k.desc, was);
    } else {
      ok, v := DecodeBasic(stream, k);
    }
  }

  /** The submessage on a substream of its own; the fields it brings replace those that are there. */
  method DecodeSubmessage(stream: IStream, d: Desc, was: Value) returns (ok: bool, v: Value)
    requires stream.Valid() && DescOk(d)
    modifies stream
    ensures stream.Valid() && stream.End() == old(stream.End())
    ensures Took(DecodeValue(Submessage(d), old(stream.Rest()), was), ok, v, stream.Rest())
    decreases d, 3
  {
    v := was;
    if !was.Message? || |was.slots| != |d.fields| {
      return false, was;
    }
    var sub: IStream;
    ok, sub := stream.MakeStringSubstream();
    if !ok {
      return;
    }
    var slots: seq<Slot>;
    ok, slots := DecodeMessage(sub, d, was.slots);
    v := Message(slots);
    var closed := stream.CloseStringSubstream(sub);
  }

  method DecodeField(stream: IStream, wireType: nat, f: Field, was: Slot) returns (ok: bool, s: Slot)
    requires stream.Valid() && KindOk(f.kind)
    modifies stream
    ensures stream.Valid() && stream.End() == old(stream.End())
    ensures TookSlot(DecodeSlot(f, wireType, old(stream.Rest()), was), ok, s, stream.Rest())
    decreases f
  {
    var v: Value;
    match was
    case One(before) =>
      ok, v := DecodeValueOf(stream, f.kind, before);
      s := One(v);
    case Maybe(choice) =>
      var before: Value;
      if choice.Some? {
        before := choice.value;
      } else {
        before := DefaultOf(f.kind);
      }
      ok, v := DecodeValueOf(stream, f.kind, before);
      s := Maybe(Some(v));
    case Many(vs) =>
      var max := if f.rule.Repeated? then f.rule.max else 0;
      if wireType == WT_STRING && Packable(f.kind) {
        ok, s := DecodePackedField(stream, f.kind, max, vs);
        return;
      }
      if |vs| >= max {
        return false, was;
      }
      var before := DefaultOf(f.kind);
      ok, v := DecodeValueOf(stream, f.kind, before);
      s := Many(vs + [v]);
  }

  /** The slots of a struct, one of which is being stored. */
  method Store(d: Desc, slots: seq<Slot>, i: nat, s: Slot) returns (r: seq<Slot>)
    requires |slots| == |d.fields| && i < |slots|
    ensures r == Put(d, slots, i, s)
  {
    r := slots[i := s];
    for j := 0 to |slots|
      invariant |r| == |slots|
      invariant forall k :: 0 <= k < j ==> r[k] == Put(d, slots, i, s)[k]
      invariant forall k :: j <= k < |slots| ==> r[k] == slots[i := s][k]
    {
      if j != i && SameUnion(d.fields[i], d.fields[j]) {
        r := r[j := Maybe(None)];
      }
    }
  }

  /** The field that the iterator has found: marked if it is required, decoded, and stored. */
  method DecodeKnownField(stream: IStream, wireType: nat, d: Desc, slots: seq<Slot>, iter: FieldIter, words: array<nat>,
                          ghost seen: set<nat>)
      returns (ok: bool, cur: seq<Slot>, ghost after: set<nat>)
    requires stream.Valid() && DescOk(d) && |slots| == |d.fields|
    requires iter.Valid() && iter.desc == d && iter.pos < |d.fields| && Tracks(d, words[..], seen)
    modifies stream, words
    ensures stream.Valid() && stream.End() == old(stream.End()) && |cur| == |d.fields|
    ensures after == seen + {iter.pos} && Tracks(d, words[..], after)
    ensures match DecodeSlot(d.fields[iter.pos], wireType, old(stream.Rest()), slots[iter.pos])
            case Bad => !ok
            case Parsed(s, rest) => ok && cur == Put(d, slots, iter.pos, s) && stream.Rest() == rest
    decreases d, 0
  {
    var i := iter.pos;
    after, cur := seen + {i}, slots;
    if d.fields[i].rule.Required? && iter.requiredFieldIndex < MAX_REQUIRED_FIELDS {
      ghost var before := words[..];
      Mark(words, iter.requiredFieldIndex);
      TracksMark(d, before, words[..], seen, i);
    } else {
      TracksOther(d, words[..], seen, i);
    }
    var s: Slot;
    ok, s := DecodeField(stream, wireType, d.fields[i], slots[i]);
    if ok {
      cur := Store(d, slots, i, s);
    }
  }

  /** Field by field, in whatever order they come, until the bytes or a zero tag end the message. */
  method DecodeFields(stream: IStream, d: Desc, slots: seq<Slot>, iter: FieldIter, words: array<nat>)
      returns (ok: bool, cur: seq<Slot>, ghost seen: set<nat>)
    requires stream.Valid() && DescOk(d) && |slots| == |d.fields|
    requires iter.Valid() && iter.desc == d && Tracks(d, words[..], {})
    modifies stream, iter, words
    ensures stream.Valid() && stream.End() == old(stream.End()) && iter.Valid()
    ensures DecodeLoop(d, old(stream.Rest()), slots, {}) == if ok then Some(Decoded(cur, seen)) else None
    ensures Tracks(d, words[..], seen)
    decreases d, 1
  {
    cur, seen := slots, {};
    while stream.bytesLeft > 0
      invariant stream.Valid() && stream.End() == old(stream.End()) && iter.Valid()
      invariant |cur| == |d.fields| && Tracks(d, words[..], seen)
      invariant DecodeLoop(d, old(stream.Rest()), slots, {}) == DecodeLoop(d, stream.Rest(), cur, seen)
      decreases stream.bytesLeft
    {
      var wireType: nat, tag: nat, eof: bool;
      ok, wireType, tag, eof := stream.DecodeTag();
      if !ok {
        return eof, cur, seen;
      }
      var found := iter.Find(tag);
      if !found {
        ok := stream.Skip(wireType);
        if !ok {
          return false, cur, seen;
        }
      } else {
        ok, cur, seen := DecodeKnownField(stream, wireType, d, cur, iter, words, seen);
        if !ok {
          return;
        }
      }
    }
    ok := true;
  }

  /** On top of the values that are there. */
  method DecodeMessage(stream: IStream, d: Desc, slots: seq<Slot>) returns (ok: bool, r: seq<Slot>)
    requires stream.Valid() && DescOk(d) && |slots| == |d.fields|
    modifies stream
    ensures stream.Valid() && stream.End() == old(stream.End())
    ensures DecodeNoinit(d, old(stream.Rest()), slots) == if ok then Some(r) else None
    decreases d, 2
  {
    ghost var rest := stream.Rest();
    var words := new nat[2](_ => 0);
    var iter := new FieldIter(d);
    TracksNothing(d);
    assert words[..] == [0, 0];
    ghost var seen: set<nat>;
    ok, r, seen := DecodeFields(stream, d, slots, iter, words);
    assert DecodeLoop(d, rest, slots, {}) == if ok then Some(Decoded(r, seen)) else None;
    if !ok {
      return;
    }
    ok := RequiredPresent(iter, words, seen);
  }

  /** A whole buffer. */
  method DecodeBuffer(d: Desc, buf: Bytes) returns (r: Option<seq<Slot>>)
    requires DescOk(d)
    ensures r == Decode(d, buf)
  {
    var stream := new IStream(buf, 0, |buf|);
    assert stream.Rest() == buf;
    var slots := SetMessageToDefaults(d);
    var ok;
    ok, slots := DecodeMessage(stream, d, slots);
    r := if ok then Some(slots) else None;
  }
}
