/**
  Version edits as the manifest stores them (db/version_edit.cc): tagged fields, written in a fixed order
  and read back in any.
 */
module EditCodec {
  import opened Wrappers
  import opened Coding

  const NUM_LEVELS: nat := 7

  const COMPARATOR: nat := 1
  const LOG_NUMBER: nat := 2
  const NEXT_FILE_NUMBER: nat := 3
  const LAST_SEQUENCE: nat := 4
  const COMPACT_POINTER: nat := 5
  const DELETED_FILE: nat := 6
  const NEW_FILE: nat := 7
  const PREV_LOG_NUMBER: nat := 9

  datatype Meta = Meta(number: nat, size: nat, smallest: Bytes, largest: Bytes)

  /** What an edit says; the deleted files are listed in ascending order, as the ordered set that holds them does. */
  datatype Edit = Edit(
    comparator: Option<Bytes>,
    logNumber: Option<nat>,
    prevLogNumber: Option<nat>,
    nextFileNumber: Option<nat>,
    lastSequence: Option<nat>,
    compactPointers: seq<(nat, Bytes)>,
    deletedFiles: seq<(nat, nat)>,
    newFiles: seq<(nat, Meta)>)

  const EMPTY: Edit := Edit(None, None, None, None, None, [], [], [])

  // ----- the ordered set of deleted files -----

  predicate Before(a: (nat, nat), b: (nat, nat)) {
    a.0 < b.0 || (a.0 == b.0 && a.1 < b.1)
  }

  ghost predicate Ascending(s: seq<(nat, nat)>) {
    forall i, j :: 0 <= i < j < |s| ==> Before(s[i], s[j])
  }

  function Insert(s: seq<(nat, nat)>, x: (nat, nat)): seq<(nat, nat)> {
    if s == [] || Before(x, s[0]) then [x] + s
    else if x == s[0] then s
    else [s[0]] + Insert(s[1..], x)
  }

  lemma {:induction false} InsertLast(s: seq<(nat, nat)>, x: (nat, nat))
    requires forall i :: 0 <= i < |s| ==> Before(s[i], x)
    ensures Insert(s, x) == s + [x]
  {
    if s != [] {
      InsertLast(s[1..], x);
      assert s == [s[0]] + s[1..];
    }
  }

  // ----- fields -----

  datatype Field =
    | Comparator(name: Bytes)
    | Number(tag: nat, number: nat)
    | CompactPointer(level: nat, key: Bytes)
    | DeletedFile(level: nat, number: nat)
    | NewFile(level: nat, meta: Meta)

  function EncodeField(f: Field): Bytes {
    match f
    case Comparator(name) => Varint(COMPARATOR) + LengthPrefixed(name)
    case Number(tag, number) => Varint(tag) + Varint(number)
    case CompactPointer(level, key) => Varint(COMPACT_POINTER) + (Varint(level) + LengthPrefixed(key))
    case DeletedFile(level, number) => Varint(DELETED_FILE) + (Varint(level) + Varint(number))
    case NewFile(level, meta) =>
      Varint(NEW_FILE)
      + (Varint(level) + (Varint(meta.number) + (Varint(meta.size)
         + (LengthPrefixed(meta.smallest) + LengthPrefixed(meta.largest)))))
  }

  function EncodeFields(fs: seq<Field>): Bytes {
    if fs == [] then [] else EncodeField(fs[0]) + EncodeFields(fs[1..])
  }

  /** A level, which must be one of the levels there are. */
  function GetLevel(s: Bytes): Parsed<nat> {
    match GetVarint32(s)
    case Bad => Bad
    case Parsed(v, rest) => if v < NUM_LEVELS then Parsed(v, rest) else Bad
  }

  function IsNumberTag(tag: nat): bool {
    tag == LOG_NUMBER || tag == PREV_LOG_NUMBER || tag == NEXT_FILE_NUMBER || tag == LAST_SEQUENCE
  }

  /** The field behind a tag. */
  function DecodeField(tag: nat, s: Bytes): Parsed<Field> {
    if tag == COMPARATOR then
      match GetLengthPrefixed(s)
      case Bad => Bad
      case Parsed(name, rest) => Parsed(Comparator(name), rest)
    else if IsNumberTag(tag) then
      match GetVarint64(s)
      case Bad => Bad
      case Parsed(n, rest) => Parsed(Number(tag, n), rest)
    else if tag == COMPACT_POINTER then
      match GetLevel(s)
      case Bad => Bad
      case Parsed(level, s1) =>
        match GetLengthPrefixed(s1)
        case Bad => Bad
        case Parsed(key, rest) => Parsed(CompactPointer(level, key), rest)
    else if tag == DELETED_FILE then
      match GetLevel(s)
      case Bad => Bad
      case Parsed(level, s1) =>
        match GetVarint64(s1)
        case Bad => Bad
        case Parsed(n, rest) => Parsed(DeletedFile(level, n), rest)
    else if tag == NEW_FILE then
      match GetLevel(s)
      case Bad => Bad
      case Parsed(level, s1) =>
        match DecodeMeta(s1)
        case Bad => Bad
        case Parsed(meta, rest) => Parsed(NewFile(level, meta), rest)
    else
      Bad
  }

  function DecodeMeta(s: Bytes): Parsed<Meta> {
    match GetVarint64(s)
    case Bad => Bad
    case Parsed(number, s1) =>
      match GetVarint64(s1)
      case Bad => Bad
      case Parsed(size, s2) =>
        match GetLengthPrefixed(s2)
        case Bad => Bad
        case Parsed(smallest, s3) =>
          match GetLengthPrefixed(s3)
          case Bad => Bad
          case Parsed(largest, rest) => Parsed(Meta(number, size, smallest, largest), rest)
  }

  /** What reading a field does to an edit. */
  function Apply(e: Edit, f: Field): Edit {
    match f
    case Comparator(name) => e.(comparator := Some(name))
    case Number(tag, n) =>
      if tag == LOG_NUMBER then e.(logNumber := Some(n))
      else if tag == PREV_LOG_NUMBER then e.(prevLogNumber := Some(n))
      else if tag == NEXT_FILE_NUMBER then e.(nextFileNumber := Some(n))
      else e.(lastSequence := Some(n))
    case CompactPointer(level, key) => e.(compactPointers := e.compactPointers + [(level, key)])
    case DeletedFile(level, n) => e.(deletedFiles := Insert(e.deletedFiles, (level, n)))
    case NewFile(level, meta) => e.(newFiles := e.newFiles + [(level, meta)])
  }

  function ApplyAll(e: Edit, fs: seq<Field>): Edit
    decreases |fs|
  {
    if fs == [] then e else ApplyAll(Apply(e, fs[0]), fs[1..])
  }

  lemma {:induction false} ApplyConcat(e: Edit, a: seq<Field>, b: seq<Field>)
    ensures ApplyAll(e, a + b) == ApplyAll(ApplyAll(e, a), b)
    decreases |a|
  {
    if a == [] {
      assert a + b == b;
    } else {
      assert (a + b)[1..] == a[1..] + b;
      ApplyConcat(Apply(e, a[0]), a[1..], b);
    }
  }

  lemma {:induction false} EncodeConcat(a: seq<Field>, b: seq<Field>)
    ensures EncodeFields(a + b) == EncodeFields(a) + EncodeFields(b)
  {
    if a == [] {
      assert a + b == b;
    } else {
      assert (a + b)[1..] == a[1..] + b;
      EncodeConcat(a[1..], b);
    }
  }

  // ----- the fields of an edit, in the order they are written -----

  function NumberField(tag: nat, n: Option<nat>): seq<Field> {
    if n.None? then [] else [Number(tag, n.value)]
  }

  function HeadFields(e: Edit): seq<Field> {
    (if e.comparator.None? then [] else [Comparator(e.comparator.value)])
    + (NumberField(LOG_NUMBER, e.logNumber)
       + (NumberField(PREV_LOG_NUMBER, e.prevLogNumber)
          + (NumberField(NEXT_FILE_NUMBER, e.nextFileNumber) + NumberField(LAST_SEQUENCE, e.lastSequence))))
  }

  function PointerFields(xs: seq<(nat, Bytes)>): seq<Field> {
    seq(|xs|, i requires 0 <= i < |xs| => CompactPointer(xs[i].0, xs[i].1))
  }

  function DeletedFields(xs: seq<(nat, nat)>): seq<Field> {
    seq(|xs|, i requires 0 <= i < |xs| => DeletedFile(xs[i].0, xs[i].1))
  }

  function NewFields(xs: seq<(nat, Meta)>): seq<Field> {
    seq(|xs|, i requires 0 <= i < |xs| => NewFile(xs[i].0, xs[i].1))
  }

  function FieldsOf(e: Edit): seq<Field> {
    HeadFields(e) + (PointerFields(e.compactPointers) + (DeletedFields(e.deletedFiles) + NewFields(e.newFiles)))
  }

  function Encode(e: Edit): Bytes {
    EncodeFields(FieldsOf(e))
  }

  /** DecodeFrom's Clear, which leaves the compaction pointers as they are. */
  function Cleared(e: Edit): Edit {
    EMPTY.(compactPointers := e.compactPointers)
  }

  lemma {:induction false} MetaConsumes(s: Bytes)
    ensures DecodeMeta(s).Parsed? ==> |DecodeMeta(s).rest| < |s|
  {
    GroupsConsumes(s, 10);
    if GetVarint64(s).Parsed? {
      var s1 := GetVarint64(s).rest;
      GroupsConsumes(s1, 10);
      if GetVarint64(s1).Parsed? {
        var s2 := GetVarint64(s1).rest;
        PrefixedConsumes(s2);
        if GetLengthPrefixed(s2).Parsed? {
          PrefixedConsumes(GetLengthPrefixed(s2).rest);
        }
      }
    }
  }

  /** Reading a field uses up some of the input. */
  lemma {:induction false} FieldConsumes(tag: nat, s: Bytes)
    ensures DecodeField(tag, s).Parsed? ==> |DecodeField(tag, s).rest| < |s|
  {
    PrefixedConsumes(s);
    GroupsConsumes(s, 10);
    GroupsConsumes(s, 5);
    if GetLevel(s).Parsed? {
      var s1 := GetLevel(s).rest;
      PrefixedConsumes(s1);
      GroupsConsumes(s1, 10);
      MetaConsumes(s1);
    }
  }

  /** Fields until no tag can be read; then there must be nothing left. */
  function DecodeInto(e: Edit, s: Bytes): Option<Edit>
    decreases |s|
  {
    match GetVarint32(s)
    case Bad => if s == [] then Some(e) else None
    case Parsed(tag, s1) =>
      match DecodeField(tag, s1)
      case Bad => None
      case Parsed(f, rest) =>
        GroupsConsumes(s, 5);
        FieldConsumes(tag, s1);
        DecodeInto(Apply(e, f), rest)
  }

  function Decode(e: Edit, s: Bytes): Option<Edit> {
    DecodeInto(Cleared(e), s)
  }

  // ----- round trip -----

  predicate MetaOk(m: Meta) {
    m.number < TWO64 && m.size < TWO64 && |m.smallest| < TWO32 && |m.largest| < TWO32
  }

  /** Levels exist, and numbers and lengths fit their fields. */
  predicate FieldOk(f: Field) {
    match f
    case Comparator(name) => |name| < TWO32
    case Number(tag, n) => IsNumberTag(tag) && n < TWO64
    case CompactPointer(level, key) => level < NUM_LEVELS && |key| < TWO32
    case DeletedFile(level, n) => level < NUM_LEVELS && n < TWO64
    case NewFile(level, meta) => level < NUM_LEVELS && MetaOk(meta)
  }

  function TagOf(f: Field): nat {
    match f
    case Comparator(_) => COMPARATOR
    case Number(tag, _) => tag
    case CompactPointer(_, _) => COMPACT_POINTER
    case DeletedFile(_, _) => DELETED_FILE
    case NewFile(_, _) => NEW_FILE
  }

  /** What follows the tag. */
  function BodyOf(f: Field): Bytes {
    match f
    case Comparator(name) => LengthPrefixed(name)
    case Number(_, n) => Varint(n)
    case CompactPointer(level, key) => Varint(level) + LengthPrefixed(key)
    case DeletedFile(level, n) => Varint(level) + Varint(n)
    case NewFile(level, meta) => Varint(level) + MetaBytes(meta)
  }

  function MetaBytes(m: Meta): Bytes {
    Varint(m.number) + (Varint(m.size) + (LengthPrefixed(m.smallest) + LengthPrefixed(m.largest)))
  }

  lemma {:induction false} FieldIs(f: Field)
    ensures EncodeField(f) == Varint(TagOf(f)) + BodyOf(f)
  {}

  lemma {:induction false} DecodesMeta(m: Meta, rest: Bytes)
    requires MetaOk(m)
    ensures DecodeMeta(MetaBytes(m) + rest) == Parsed(m, rest)
  {
    var s3 := LengthPrefixed(m.largest) + rest;
    var s2 := LengthPrefixed(m.smallest) + s3;
    var s1 := Varint(m.size) + s2;
    assert MetaBytes(m) + rest == Varint(m.number) + s1 by {
      MetaRegroup(Varint(m.number), Varint(m.size), LengthPrefixed(m.smallest), LengthPrefixed(m.largest), rest);
    }
    Varint64RoundTrip(m.number, s1);
    Varint64RoundTrip(m.size, s2);
    LengthPrefixedRoundTrip(m.smallest, s3);
    LengthPrefixedRoundTrip(m.largest, rest);
  }

  lemma {:induction false} MetaRegroup(a: Bytes, b: Bytes, c: Bytes, d: Bytes, e: Bytes)
    ensures (a + (b + (c + d))) + e == a + (b + (c + (d + e)))
  {}

  lemma {:induction false} DecodesLevel(level: nat, rest: Bytes)
    requires level < NUM_LEVELS
    ensures GetLevel(Varint(level) + rest) == Parsed(level, rest)
  {
    Varint32RoundTrip(level, rest);
  }

  lemma {:induction false} DecodesPointer(level: nat, key: Bytes, rest: Bytes)
    requires level < NUM_LEVELS && |key| < TWO32
    ensures DecodeField(COMPACT_POINTER, Varint(level) + (LengthPrefixed(key) + rest)) ==
            Parsed(CompactPointer(level, key), rest)
  {
    DecodesLevel(level, LengthPrefixed(key) + rest);
    LengthPrefixedRoundTrip(key, rest);
  }

  lemma {:induction false} DecodesDeleted(level: nat, n: nat, rest: Bytes)
    requires level < NUM_LEVELS && n < TWO64
    ensures DecodeField(DELETED_FILE, Varint(level) + (Varint(n) + rest)) == Parsed(DeletedFile(level, n), rest)
  {
    DecodesLevel(level, Varint(n) + rest);
    Varint64RoundTrip(n, rest);
  }

  lemma {:induction false} DecodesNewFile(level: nat, meta: Meta, rest: Bytes)
    requires level < NUM_LEVELS && MetaOk(meta)
    ensures DecodeField(NEW_FILE, Varint(level) + (MetaBytes(meta) + rest)) == Parsed(NewFile(level, meta), rest)
  {
    DecodesLevel(level, MetaBytes(meta) + rest);
    DecodesMeta(meta, rest);
  }

  lemma {:induction false} Regroup(a: Bytes, b: Bytes, c: Bytes)
    ensures (a + b) + c == a + (b + c)
  {}

  lemma {:induction false} DecodesBody(f: Field, rest: Bytes)
    requires FieldOk(f)
    ensures DecodeField(TagOf(f), BodyOf(f) + rest) == Parsed(f, rest)
  {
    match f
    case Comparator(name) =>
      LengthPrefixedRoundTrip(name, rest);
    case Number(_, n) =>
      Varint64RoundTrip(n, rest);
    case CompactPointer(level, key) =>
      Regroup(Varint(level), LengthPrefixed(key), rest);
      DecodesPointer(level, key, rest);
    case DeletedFile(level, n) =>
      Regroup(Varint(level), Varint(n), rest);
      DecodesDeleted(level, n, rest);
    case NewFile(level, meta) =>
      Regroup(Varint(level), MetaBytes(meta), rest);
      DecodesNewFile(level, meta, rest);
  }

  lemma {:induction false} DecodeStep(e: Edit, f: Field, more: Bytes)
    requires FieldOk(f)
    ensures DecodeInto(e, EncodeField(f) + more) == DecodeInto(Apply(e, f), more)
  {
    FieldIs(f);
    Regroup(Varint(TagOf(f)), BodyOf(f), more);
    Varint32RoundTrip(TagOf(f), BodyOf(f) + more);
    DecodesBody(f, more);
  }

  lemma {:induction false} DecodesFields(e: Edit, fs: seq<Field>)
    requires forall i :: 0 <= i < |fs| ==> FieldOk(fs[i])
    ensures DecodeInto(e, EncodeFields(fs)) == Some(ApplyAll(e, fs))
    decreases |fs|
  {
    if fs == [] {
      assert GetVarint32([]) == Bad;
    } else {
      DecodeStep(e, fs[0], EncodeFields(fs[1..]));
      DecodesFields(Apply(e, fs[0]), fs[1..]);
    }
  }

  lemma {:induction false} ApplyPointers(e: Edit, xs: seq<(nat, Bytes)>)
    ensures ApplyAll(e, PointerFields(xs)) == e.(compactPointers := e.compactPointers + xs)
    decreases |xs|
  {
    if xs == [] {
      assert e.compactPointers + [] == e.compactPointers;
    } else {
      assert PointerFields(xs)[1..] == PointerFields(xs[1..]);
      ApplyPointers(Apply(e, PointerFields(xs)[0]), xs[1..]);
      assert (e.compactPointers + [xs[0]]) + xs[1..] == e.compactPointers + xs;
    }
  }

  lemma {:induction false} ApplyNewFiles(e: Edit, xs: seq<(nat, Meta)>)
    ensures ApplyAll(e, NewFields(xs)) == e.(newFiles := e.newFiles + xs)
    decreases |xs|
  {
    if xs == [] {
      assert e.newFiles + [] == e.newFiles;
    } else {
      assert NewFields(xs)[1..] == NewFields(xs[1..]);
      ApplyNewFiles(Apply(e, NewFields(xs)[0]), xs[1..]);
      assert (e.newFiles + [xs[0]]) + xs[1..] == e.newFiles + xs;
    }
  }

  /** Ascending deletions are inserted at the end one by one. */
  lemma {:induction false} ApplyDeleted(e: Edit, xs: seq<(nat, nat)>)
    requires Ascending(e.deletedFiles + xs)
    ensures ApplyAll(e, DeletedFields(xs)) == e.(deletedFiles := e.deletedFiles + xs)
    decreases |xs|
  {
    if xs == [] {
      assert e.deletedFiles + [] == e.deletedFiles;
    } else {
      var all := e.deletedFiles + xs;
      assert all[|e.deletedFiles|] == xs[0] && forall i :: 0 <= i < |e.deletedFiles| ==> all[i] == e.deletedFiles[i];
      InsertLast(e.deletedFiles, xs[0]);
      assert DeletedFields(xs)[1..] == DeletedFields(xs[1..]);
      assert (e.deletedFiles + [xs[0]]) + xs[1..] == all;
      ApplyDeleted(Apply(e, DeletedFields(xs)[0]), xs[1..]);
    }
  }

  lemma {:induction false} ApplyFront(e: Edit, a: seq<Field>, more: seq<Field>)
    requires |a| <= 1
    ensures ApplyAll(e, a + more) == ApplyAll(if a == [] then e else Apply(e, a[0]), more)
  {
    if a == [] {
      assert a + more == more;
    } else {
      assert (a + more)[1..] == more;
    }
  }

  function WithNumber(e: Edit, tag: nat, n: Option<nat>): Edit {
    if n.None? then e else Apply(e, Number(tag, n.value))
  }

  lemma {:induction false} ApplyNumber(e: Edit, tag: nat, n: Option<nat>, more: seq<Field>)
    ensures ApplyAll(e, NumberField(tag, n) + more) == ApplyAll(WithNumber(e, tag, n), more)
  {
    ApplyFront(e, NumberField(tag, n), more);
  }

  lemma {:induction false} ApplyNumbers(base: Edit, e: Edit)
    ensures ApplyAll(base, NumberField(LOG_NUMBER, e.logNumber)
                           + (NumberField(PREV_LOG_NUMBER, e.prevLogNumber)
                              + (NumberField(NEXT_FILE_NUMBER, e.nextFileNumber)
                                + NumberField(LAST_SEQUENCE, e.lastSequence))))
            == WithNumber(WithNumber(WithNumber(WithNumber(base, LOG_NUMBER, e.logNumber),
                                                PREV_LOG_NUMBER, e.prevLogNumber),
                                     NEXT_FILE_NUMBER, e.nextFileNumber), LAST_SEQUENCE, e.lastSequence)
  {
    var c, d := NumberField(PREV_LOG_NUMBER, e.prevLogNumber), NumberField(NEXT_FILE_NUMBER, e.nextFileNumber);
    var f := NumberField(LAST_SEQUENCE, e.lastSequence);
    var e2 := WithNumber(base, LOG_NUMBER, e.logNumber);
    var e3 := WithNumber(e2, PREV_LOG_NUMBER, e.prevLogNumber);
    ApplyNumber(base, LOG_NUMBER, e.logNumber, c + (d + f));
    ApplyNumber(e2, PREV_LOG_NUMBER, e.prevLogNumber, d + f);
    ApplyNumber(e3, NEXT_FILE_NUMBER, e.nextFileNumber, f);
    assert f + [] == f;
    ApplyNumber(WithNumber(e3, NEXT_FILE_NUMBER, e.nextFileNumber), LAST_SEQUENCE, e.lastSequence, []);
  }

  lemma {:induction false} ApplyHead(base: Edit, e: Edit)
    requires base == EMPTY.(compactPointers := base.compactPointers)
    ensures ApplyAll(base, HeadFields(e)) ==
            e.(compactPointers := base.compactPointers, deletedFiles := [], newFiles := [])
  {
    var a := if e.comparator.None? then [] else [Comparator(e.comparator.value)];
    var numbers := NumberField(LOG_NUMBER, e.logNumber)
                   + (NumberField(PREV_LOG_NUMBER, e.prevLogNumber)
                      + (NumberField(NEXT_FILE_NUMBER, e.nextFileNumber) + NumberField(LAST_SEQUENCE, e.lastSequence)));
    ApplyFront(base, a, numbers);
    ApplyNumbers(base.(comparator := e.comparator), e);
  }

  /** Levels and sizes that the encoding can carry, and deletions in the order of the set. */
  ghost predicate EditOk(e: Edit) {
    Ascending(e.deletedFiles) && forall i :: 0 <= i < |FieldsOf(e)| ==> FieldOk(FieldsOf(e)[i])
  }

  /** Decoding gives back what was encoded, behind the compaction pointers the edit had before. */
  lemma {:induction false} DecodeEncoded(before: Edit, e: Edit)
    requires EditOk(e)
    ensures Decode(before, Encode(e)) == Some(e.(compactPointers := before.compactPointers + e.compactPointers))
  {
    var base := Cleared(before);
    var p, d, n := PointerFields(e.compactPointers), DeletedFields(e.deletedFiles), NewFields(e.newFiles);
    DecodesFields(base, FieldsOf(e));
    ApplyConcat(base, HeadFields(e), p + (d + n));
    ApplyHead(base, e);
    var e1 := ApplyAll(base, HeadFields(e));
    ApplyConcat(e1, p, d + n);
    ApplyPointers(e1, e.compactPointers);
    var e2 := ApplyAll(e1, p);
    ApplyConcat(e2, d, n);
    assert [] + e.deletedFiles == e.deletedFiles && [] + e.newFiles == e.newFiles;
    ApplyDeleted(e2, e.deletedFiles);
    ApplyNewFiles(ApplyAll(e2, d), e.newFiles);
  }

  /** So decoding inverts encoding exactly on an edit that held no compaction pointers. */
  lemma {:induction false} DecodeInvertsIff(before: Edit, e: Edit)
    requires EditOk(e)
    ensures Decode(before, Encode(e)) == Some(e) <==> before.compactPointers == []
  {
    DecodeEncoded(before, e);
    assert [] + e.compactPointers == e.compactPointers;
    assert before.compactPointers + e.compactPointers == e.compactPointers ==>
        |before.compactPointers| + |e.compactPointers| == |e.compactPointers|;
  }

  // ----- the edit as an object -----

  class VersionEdit {
    var comparator: Option<Bytes>
    var logNumber: Option<nat>
    var prevLogNumber: Option<nat>
    var nextFileNumber: Option<nat>
    var lastSequence: Option<nat>
    var compactPointers: seq<(nat, Bytes)>
    var deletedFiles: seq<(nat, nat)>
    var newFiles: seq<(nat, Meta)>

    function State(): Edit
      reads this
    {
      Edit(comparator, logNumber, prevLogNumber, nextFileNumber, lastSequence, compactPointers, deletedFiles, newFiles)
    }

    constructor ()
      ensures State() == EMPTY
    {
      comparator, logNumber, prevLogNumber, nextFileNumber, lastSequence := None, None, None, None, None;
      compactPointers, deletedFiles, newFiles := [], [], [];
    }

    method Clear()
      modifies this
      ensures State() == Cleared(old(State()))
    {
      comparator, logNumber, prevLogNumber, nextFileNumber, lastSequence := None, None, None, None, None;
      deletedFiles, newFiles := [], [];
    }

    method PutNumber(dst: Bytes, tag: nat, n: Option<nat>) returns (r: Bytes)
      ensures r == dst + EncodeFields(NumberField(tag, n))
    {
      r := dst;
      if n.Some? {
        r := r + Varint(tag);
        r := r + Varint(n.value);
        EncodeOne(Number(tag, n.value));
      }
    }

    method PutComparator(dst: Bytes) returns (r: Bytes)
      ensures r == dst + EncodeFields(if comparator.None? then [] else [Comparator(comparator.value)])
    {
      r := dst;
      if comparator.Some? {
        r := r + Varint(COMPARATOR);
        r := r + LengthPrefixed(comparator.value);
        EncodeOne(Comparator(comparator.value));
      }
    }

    method EncodeHead() returns (r: Bytes)
      ensures r == EncodeFields(HeadFields(State()))
    {
      HeadEncoded(State());
      r := PutComparator([]);
      r := PutNumber(r, LOG_NUMBER, logNumber);
      r := PutNumber(r, PREV_LOG_NUMBER, prevLogNumber);
      r := PutNumber(r, NEXT_FILE_NUMBER, nextFileNumber);
      r := PutNumber(r, LAST_SEQUENCE, lastSequence);
    }

    method PutPointer(dst: Bytes, level: nat, key: Bytes) returns (r: Bytes)
      ensures r == dst + EncodeField(CompactPointer(level, key))
    {
      r := dst + Varint(COMPACT_POINTER);
      r := r + Varint(level);
      r := r + LengthPrefixed(key);
      Regroup4(dst, Varint(COMPACT_POINTER), Varint(level), LengthPrefixed(key));
    }

    method PutDeletion(dst: Bytes, level: nat, number: nat) returns (r: Bytes)
      ensures r == dst + EncodeField(DeletedFile(level, number))
    {
      r := dst + Varint(DELETED_FILE);
      r := r + Varint(level);
      r := r + Varint(number);
      Regroup4(dst, Varint(DELETED_FILE), Varint(level), Varint(number));
    }

    method PutNewFile(dst: Bytes, level: nat, meta: Meta) returns (r: Bytes)
      ensures r == dst + EncodeField(NewFile(level, meta))
    {
      r := dst + Varint(NEW_FILE);
      r := r + Varint(level);
      r := PutMeta(r, meta);
      Regroup4(dst, Varint(NEW_FILE), Varint(level), MetaBytes(meta));
    }

    method PutPointers(dst: Bytes) returns (r: Bytes)
      ensures r == dst + EncodeFields(PointerFields(compactPointers))
    {
      r := dst;
      ghost var fs := PointerFields(compactPointers);
      for i := 0 to |compactPointers|
        invariant r == dst + EncodeFields(fs[..i])
      {
        AppendField(dst, fs, i);
        r := PutPointer(r, compactPointers[i].0, compactPointers[i].1);
      }
      assert fs[..|fs|] == fs;
    }

    method PutDeleted(dst: Bytes) returns (r: Bytes)
      ensures r == dst + EncodeFields(DeletedFields(deletedFiles))
    {
      r := dst;
      ghost var fs := DeletedFields(deletedFiles);
      for i := 0 to |deletedFiles|
        invariant r == dst + EncodeFields(fs[..i])
      {
        AppendField(dst, fs, i);
        r := PutDeletion(r, deletedFiles[i].0, deletedFiles[i].1);
      }
      assert fs[..|fs|] == fs;
    }

    method PutNewFiles(dst: Bytes) returns (r: Bytes)
      ensures r == dst + EncodeFields(NewFields(newFiles))
    {
      r := dst;
      ghost var fs := NewFields(newFiles);
      for i := 0 to |newFiles|
        invariant r == dst + EncodeFields(fs[..i])
      {
        AppendField(dst, fs, i);
        r := PutNewFile(r, newFiles[i].0, newFiles[i].1);
      }
      assert fs[..|fs|] == fs;
    }

    method EncodeTo(dst: Bytes) returns (r: Bytes)
      ensures r == dst + Encode(State())
    {
      EncodeParts(dst, State());
      r := EncodeHead();
      r := dst + r;
      r := PutPointers(r);
      r := PutDeleted(r);
      r := PutNewFiles(r);
    }

    method PutMeta(dst: Bytes, m: Meta) returns (r: Bytes)
      ensures r == dst + MetaBytes(m)
    {
      r := dst + Varint(m.number);
      r := r + Varint(m.size);
      r := r + LengthPrefixed(m.smallest);
      r := r + LengthPrefixed(m.largest);
      MetaRegroup(dst, Varint(m.number), Varint(m.size), LengthPrefixed(m.smallest), LengthPrefixed(m.largest));
    }

    /** Reads an edit; false on a field that is cut off or unknown. */
    method DecodeFrom(src: Bytes) returns (ok: bool)
      modifies this
      ensures ok ==> Decode(old(State()), src) == Some(State())
      ensures !ok ==> Decode(old(State()), src) == None
    {
      Clear();
      var input := src;
      var tag := GetVarint32(input);
      while tag.Parsed?
        invariant tag == GetVarint32(input) && DecodeInto(State(), input) == Decode(old(State()), src)
        decreases |input|
      {
        GroupsConsumes(input, 5);
        FieldConsumes(tag.value, tag.rest);
        var f := DecodeField(tag.value, tag.rest);
        if f.Bad? {
          return false;
        }
        Take(f.value);
        input := f.rest;
        tag := GetVarint32(input);
      }
      ok := input == [];
    }

    /** Stores one field that was read. */
    method Take(f: Field)
      modifies this
      ensures State() == Apply(old(State()), f)
    {
      match f
      case Comparator(name) =>
        comparator := Some(name);
      case Number(tag, n) =>
        if tag == LOG_NUMBER {
          logNumber := Some(n);
        } else if tag == PREV_LOG_NUMBER {
          prevLogNumber := Some(n);
        } else if tag == NEXT_FILE_NUMBER {
          nextFileNumber := Some(n);
        } else {
          lastSequence := Some(n);
        }
      case CompactPointer(level, key) =>
        compactPointers := compactPointers + [(level, key)];
      case DeletedFile(level, n) =>
        deletedFiles := Insert(deletedFiles, (level, n));
      case NewFile(level, meta) =>
        newFiles := newFiles + [(level, meta)];
    }
  }

  lemma {:induction false} EncodeOne(f: Field)
    ensures EncodeFields([f]) == EncodeField(f)
  {
    assert [f][1..] == [] && EncodeField(f) + [] == EncodeField(f);
  }

  lemma {:induction false} EncodeMore(fs: seq<Field>, i: nat)
    requires i < |fs|
    ensures EncodeFields(fs[..i + 1]) == EncodeFields(fs[..i]) + EncodeField(fs[i])
  {
    assert fs[..i + 1] == fs[..i] + [fs[i]];
    EncodeConcat(fs[..i], [fs[i]]);
    EncodeOne(fs[i]);
  }

  lemma {:induction false} HeadEncoded(e: Edit)
    ensures EncodeFields(HeadFields(e)) ==
            (((EncodeFields(if e.comparator.None? then [] else [Comparator(e.comparator.value)])
               + EncodeFields(NumberField(LOG_NUMBER, e.logNumber)))
              + EncodeFields(NumberField(PREV_LOG_NUMBER, e.prevLogNumber)))
             + EncodeFields(NumberField(NEXT_FILE_NUMBER, e.nextFileNumber)))
            + EncodeFields(NumberField(LAST_SEQUENCE, e.lastSequence))
  {
    var a := if e.comparator.None? then [] else [Comparator(e.comparator.value)];
    var b, c := NumberField(LOG_NUMBER, e.logNumber), NumberField(PREV_LOG_NUMBER, e.prevLogNumber);
    var d, f := NumberField(NEXT_FILE_NUMBER, e.nextFileNumber), NumberField(LAST_SEQUENCE, e.lastSequence);
    EncodeConcat(a, b + (c + (d + f)));
    EncodeConcat(b, c + (d + f));
    EncodeConcat(c, d + f);
    EncodeConcat(d, f);
    Regroup5(EncodeFields(a), EncodeFields(b), EncodeFields(c), EncodeFields(d), EncodeFields(f));
  }

  lemma {:induction false} Regroup5(a: Bytes, b: Bytes, c: Bytes, d: Bytes, e: Bytes)
    ensures a + (b + (c + (d + e))) == (((a + b) + c) + d) + e
  {}

  lemma {:induction false} Regroup4(a: Bytes, b: Bytes, c: Bytes, d: Bytes)
    ensures ((a + b) + c) + d == a + (b + (c + d))
  {}

  lemma {:induction false} AppendField(dst: Bytes, fs: seq<Field>, i: nat)
    requires i < |fs|
    ensures (dst + EncodeFields(fs[..i])) + EncodeField(fs[i]) == dst + EncodeFields(fs[..i + 1])
  {
    EncodeMore(fs, i);
    Regroup(dst, EncodeFields(fs[..i]), EncodeField(fs[i]));
  }

  lemma {:induction false} EncodeParts(dst: Bytes, e: Edit)
    ensures dst + Encode(e) == (((dst + EncodeFields(HeadFields(e))) + EncodeFields(PointerFields(e.compactPointers)))
                                + EncodeFields(DeletedFields(e.deletedFiles))) + EncodeFields(NewFields(e.newFiles))
  {
    var h, p, d, n := HeadFields(e), PointerFields(e.compactPointers), DeletedFields(e.deletedFiles),
      NewFields(e.newFiles);
    EncodeConcat(h, p + (d + n));
    EncodeConcat(p, d + n);
    EncodeConcat(d, n);
    Regroup5(dst, EncodeFields(h), EncodeFields(p), EncodeFields(d), EncodeFields(n));
  }

  /** An edit written out and read by a fresh one is the same edit. */
  method WriteAndRead(edit: VersionEdit) returns (copy: VersionEdit, ok: bool)
    ensures EditOk(edit.State()) ==> ok && copy.State() == edit.State()
    ensures fresh(copy)
  {
    var bytes := edit.EncodeTo([]);
    copy := new VersionEdit();
    ok := copy.DecodeFrom(bytes);
    if EditOk(edit.State()) {
      assert [] + Encode(edit.State()) == Encode(edit.State());
      DecodeInvertsIff(EMPTY, edit.State());
    }
  }
}
