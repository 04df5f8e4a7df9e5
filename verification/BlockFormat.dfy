/**
  The layout of a block: keys with the prefix they share with the key before left out, except at
  restart points, and an array of the restart offsets (table/block_builder.cc, table/block.cc).
 */
module BlockFormat {
  import opened Wrappers
  import opened Coding

  datatype Pair = Pair(key: Bytes, value: Bytes)

  /** What a block holds: its entries in order, and at which of them compression starts over. */
  datatype Layout = Layout(pairs: seq<Pair>, starts: seq<nat>)

  ghost predicate WellFormed(l: Layout) {
    && l.starts != [] && l.starts[0] == 0
    && (forall i, j :: 0 <= i < j < |l.starts| ==> l.starts[i] < l.starts[j])
    && (forall j :: 0 <= j < |l.starts| ==> l.starts[j] < |l.pairs| || l.starts[j] == 0)
  }

  /** The length of the longest common prefix. */
  function Common(a: Bytes, b: Bytes): (n: nat)
    ensures n <= |a| && n <= |b| && a[..n] == b[..n]
    ensures n < |a| && n < |b| ==> a[n] != b[n]
  {
    if a == [] || b == [] || a[0] != b[0] then
      0
    else
      var n := Common(a[1..], b[1..]);
      assert a == [a[0]] + a[1..] && b == [b[0]] + b[1..];
      assert a[..n + 1] == [a[0]] + a[1..][..n] && b[..n + 1] == [b[0]] + b[1..][..n];
      n + 1
  }

  function PreviousKey(l: Layout, i: nat): Bytes
    requires i <= |l.pairs|
  {
    if i == 0 then [] else l.pairs[i - 1].key
  }

  /** How many bytes of its key entry `i` leaves out. */
  function Shared(l: Layout, i: nat): (n: nat)
    requires i < |l.pairs|
    ensures n <= |PreviousKey(l, i)| && n <= |l.pairs[i].key| && PreviousKey(l, i)[..n] == l.pairs[i].key[..n]
    ensures i in l.starts ==> n == 0
  {
    if i in l.starts then 0 else Common(PreviousKey(l, i), l.pairs[i].key)
  }

  /** Between restart points an entry leaves out as much of its key as it can. */
  lemma {:induction false} SharesMost(l: Layout, i: nat, n: nat)
    requires i < |l.pairs| && i !in l.starts
    requires n <= |PreviousKey(l, i)| && n <= |l.pairs[i].key| && PreviousKey(l, i)[..n] == l.pairs[i].key[..n]
    ensures n <= Shared(l, i)
  {
    var a, b, m := PreviousKey(l, i), l.pairs[i].key, Shared(l, i);
    if m < n {
      SameAt(a, b, n, m);
    }
  }

  /** An entry of short strings: three lengths of one byte each, the rest of the key, the value. */
  lemma {:induction false} ShortEntry(shared: nat, pair: Pair)
    requires shared <= |pair.key| < 128 && |pair.value| < 128
    ensures EntryBytes(shared, pair) ==
            [shared as byte, (|pair.key| - shared) as byte, |pair.value| as byte] + pair.key[shared..] + pair.value
  {}

  function EntryBytes(shared: nat, pair: Pair): (r: Bytes)
    requires shared <= |pair.key|
    ensures |r| >= 3
  {
    Varint(shared) + (Varint(|pair.key| - shared) + (Varint(|pair.value|) + (pair.key[shared..] + pair.value)))
  }

  function Entry(l: Layout, i: nat): (r: Bytes)
    requires i < |l.pairs|
    ensures |r| >= 3
  {
    EntryBytes(Shared(l, i), l.pairs[i])
  }

  function Entries(l: Layout): seq<Bytes> {
    seq(|l.pairs|, i requires 0 <= i < |l.pairs| => Entry(l, i))
  }

  /** The first `i` chunks in a row. */
  function Front(chunks: seq<Bytes>, i: nat): Bytes
    requires i <= |chunks|
  {
    if i == 0 then [] else Front(chunks, i - 1) + chunks[i - 1]
  }

  lemma {:induction false} FrontSame(a: seq<Bytes>, b: seq<Bytes>, i: nat)
    requires i <= |a| && i <= |b| && forall j :: 0 <= j < i ==> a[j] == b[j]
    ensures Front(a, i) == Front(b, i)
  {
    if i > 0 {
      FrontSame(a, b, i - 1);
    }
  }

  function Data(l: Layout): Bytes {
    Front(Entries(l), |l.pairs|)
  }

  /** The offset of entry `i`, or of the end of the entries. */
  function Offset(l: Layout, i: nat): nat
    requires i <= |l.pairs|
  {
    |Front(Entries(l), i)|
  }

  /** The byte offset of restart point `j`. */
  function RestartPoint(l: Layout, j: nat): nat
    requires j < |l.starts|
  {
    if l.starts[j] <= |l.pairs| then Offset(l, l.starts[j]) else 0
  }

  function RestartPoints(l: Layout): seq<nat> {
    seq(|l.starts|, j requires 0 <= j < |l.starts| => RestartPoint(l, j))
  }

  function FixedAll(xs: seq<nat>): (r: Bytes)
    ensures |r| == 4 * |xs|
  {
    if xs == [] then [] else FixedAll(xs[..|xs| - 1]) + Fixed(4, xs[|xs| - 1])
  }

  /** The restart offsets and how many there are. */
  function Trailer(l: Layout): Bytes {
    FixedAll(RestartPoints(l)) + Fixed(4, |l.starts|)
  }

  function Finished(l: Layout): Bytes {
    Data(l) + Trailer(l)
  }

  // ----- decoding -----

  datatype Header = Header(shared: nat, nonShared: nat, valueLength: nat, rest: Bytes)

  /** The entry at the front of `s`. */
  function DecodeEntry(s: Bytes): (r: Option<Header>)
    ensures r.Some? ==> r.value.nonShared + r.value.valueLength <= |r.value.rest|
  {
    if |s| < 3 then
      None
    else
      var header := if s[0] < 128 && s[1] < 128 && s[2] < 128 then
          Some(Header(s[0] as nat, s[1] as nat, s[2] as nat, s[3..]))
        else
          DecodeLengths(s);
      if header.Some? && |header.value.rest| < header.value.nonShared + header.value.valueLength then None else header
  }

  function DecodeLengths(s: Bytes): Option<Header> {
    match GetVarint32(s)
    case Bad => None
    case Parsed(shared, s1) =>
      match GetVarint32(s1)
      case Bad => None
      case Parsed(nonShared, s2) =>
        match GetVarint32(s2)
        case Bad => None
        case Parsed(valueLength, s3) => Some(Header(shared, nonShared, valueLength, s3))
  }

  lemma {:induction false} ShortVarint(s: Bytes)
    requires s != [] && s[0] < 128
    ensures GetVarint32(s) == Parsed(s[0] as nat, s[1..])
  {}

  lemma {:induction false} FastPath(s: Bytes)
    requires |s| >= 3 && s[0] < 128 && s[1] < 128 && s[2] < 128
    ensures DecodeLengths(s) == Some(Header(s[0] as nat, s[1] as nat, s[2] as nat, s[3..]))
  {
    ShortVarint(s);
    ShortVarint(s[1..]);
    ShortVarint(s[2..]);
    assert s[1..][1..] == s[2..] && s[2..][1..] == s[3..];
  }

  lemma {:induction false} DecodesLengths(a: nat, b: nat, c: nat, body: Bytes)
    requires a < TWO32 && b < TWO32 && c < TWO32
    ensures DecodeLengths(Varint(a) + (Varint(b) + (Varint(c) + body))) == Some(Header(a, b, c, body))
  {
    Varint32RoundTrip(a, Varint(b) + (Varint(c) + body));
    Varint32RoundTrip(b, Varint(c) + body);
    Varint32RoundTrip(c, body);
  }

  /** The fast path changes nothing. */
  lemma {:induction false} DecodeEntryIs(s: Bytes, h: Header)
    requires |s| >= 3 && DecodeLengths(s) == Some(h) && h.nonShared + h.valueLength <= |h.rest|
    ensures DecodeEntry(s) == Some(h)
  {
    if s[0] < 128 && s[1] < 128 && s[2] < 128 {
      FastPath(s);
    }
  }

  lemma {:induction false} EntryParts(shared: nat, pair: Pair, tail: Bytes)
    requires shared <= |pair.key|
    ensures EntryBytes(shared, pair) + tail ==
            Varint(shared) + (Varint(|pair.key| - shared)
                              + (Varint(|pair.value|) + (pair.key[shared..] + pair.value + tail)))
  {
    Regroup(Varint(shared), Varint(|pair.key| - shared), Varint(|pair.value|), pair.key[shared..] + pair.value, tail);
  }

  lemma {:induction false} Regroup(a: Bytes, b: Bytes, c: Bytes, d: Bytes, e: Bytes)
    ensures (a + (b + (c + d))) + e == a + (b + (c + (d + e)))
  {}

  /** An entry is decoded as it was written, whatever follows it. */
  lemma {:induction false} DecodesEntry(shared: nat, pair: Pair, tail: Bytes)
    requires shared <= |pair.key| < TWO32 && |pair.value| < TWO32
    ensures DecodeEntry(EntryBytes(shared, pair) + tail) ==
            Some(Header(shared, |pair.key| - shared, |pair.value|, pair.key[shared..] + pair.value + tail))
  {
    EntryParts(shared, pair, tail);
    var body := pair.key[shared..] + pair.value + tail;
    DecodesLengths(shared, |pair.key| - shared, |pair.value|, body);
    DecodeEntryIs(EntryBytes(shared, pair) + tail, Header(shared, |pair.key| - shared, |pair.value|, body));
  }

  /** Decoding consumes at least the three lengths. */
  lemma {:induction false} DecodeConsumes(s: Bytes)
    ensures DecodeEntry(s).Some? ==> |DecodeEntry(s).value.rest| + 3 <= |s|
  {
    if |s| >= 3 && DecodeLengths(s).Some? {
      LengthsConsume(s);
    }
  }

  lemma {:induction false} LengthsConsume(s: Bytes)
    requires DecodeLengths(s).Some?
    ensures |DecodeLengths(s).value.rest| + 3 <= |s|
  {
    GroupsConsumes(s, 5);
    var s1 := GetVarint32(s).rest;
    GroupsConsumes(s1, 5);
    var s2 := GetVarint32(s1).rest;
    GroupsConsumes(s2, 5);
  }

  // ----- where things are in a finished block -----

  lemma {:induction false} FrontGrows(chunks: seq<Bytes>, i: nat, j: nat)
    requires i <= j <= |chunks|
    ensures |Front(chunks, i)| <= |Front(chunks, j)| && Front(chunks, j)[..|Front(chunks, i)|] == Front(chunks, i)
    decreases j
  {
    if i < j {
      FrontGrows(chunks, i, j - 1);
    }
  }

  /** What follows the first `i` chunks is chunk `i` and what follows it. */
  lemma {:induction false} ChunkAt(chunks: seq<Bytes>, i: nat, n: nat)
    requires i < n <= |chunks|
    ensures |Front(chunks, i + 1)| == |Front(chunks, i)| + |chunks[i]| && |Front(chunks, i + 1)| <= |Front(chunks, n)|
    ensures Front(chunks, n)[|Front(chunks, i)|..] == chunks[i] + Front(chunks, n)[|Front(chunks, i + 1)|..]
  {
    FrontGrows(chunks, i + 1, n);
    Reassemble(Front(chunks, i), chunks[i], Front(chunks, n));
  }

  lemma {:induction false} Reassemble(a: Bytes, b: Bytes, all: Bytes)
    requires |a + b| <= |all| && all[..|a + b|] == a + b
    ensures all[|a|..] == b + all[|a + b|..]
  {
    assert all == (a + b) + all[|a + b|..];
  }

  lemma {:induction false} OffsetsAscend(l: Layout, i: nat, j: nat)
    requires i <= j <= |l.pairs|
    ensures Offset(l, i) <= Offset(l, j) && (i < j ==> Offset(l, i) < Offset(l, j))
    decreases j
  {
    if i < j {
      OffsetsAscend(l, i, j - 1);
      assert |Entries(l)[j - 1]| >= 3;
    }
  }

  lemma {:induction false} FixedAllAt(xs: seq<nat>, j: nat)
    requires j < |xs|
    ensures FixedAll(xs)[4 * j..4 * j + 4] == Fixed(4, xs[j])
  {
    var front := xs[..|xs| - 1];
    if j < |front| {
      FixedAllAt(front, j);
      assert FixedAll(xs)[4 * j..4 * j + 4] == FixedAll(front)[4 * j..4 * j + 4];
    }
  }

  /** What a reader relies on: the offsets of the entries and the restart points among them. */
  datatype View = View(pairs: seq<Pair>, starts: seq<nat>, offsets: seq<nat>)

  function GetRestart(f: Bytes, restarts: nat, j: nat): nat
    requires restarts + 4 * j + 4 <= |f|
  {
    Unfixed(f[restarts + 4 * j..restarts + 4 * j + 4])
  }

  function DecodeAt(f: Bytes, restarts: nat, p: nat): Option<Header>
    requires restarts <= |f|
  {
    if p > restarts then None else DecodeEntry(f[p..restarts])
  }

  ghost predicate StartAt(f: Bytes, restarts: nat, v: View, j: nat) {
    j < |v.starts| && restarts + 4 * j + 4 <= |f| ==>
      v.starts[j] < |v.offsets| && GetRestart(f, restarts, j) == v.offsets[v.starts[j]]
  }

  /** An entry is decoded at `begin`, ends at `end`, and needs only the key before it. */
  ghost predicate ReadsAs(f: Bytes, restarts: nat, begin: nat, end: nat, previous: Bytes, pair: Pair, start: bool)
    requires restarts <= |f|
  {
    && begin < end <= restarts
    && var h := DecodeAt(f, restarts, begin);
    && h.Some?
    && restarts + h.value.nonShared + h.value.valueLength == end + |h.value.rest|
    && h.value.rest[h.value.nonShared..h.value.nonShared + h.value.valueLength] == pair.value
    && (start ==> h.value.shared == 0)
    && h.value.shared <= |previous|
    && previous[..h.value.shared] + h.value.rest[..h.value.nonShared] == pair.key
  }

  ghost predicate EntryOk(f: Bytes, restarts: nat, v: View, i: nat)
    requires restarts <= |f|
  {
    i < |v.pairs| < |v.offsets| ==>
      ReadsAs(f, restarts, v.offsets[i], v.offsets[i + 1], if i == 0 then [] else v.pairs[i - 1].key, v.pairs[i],
              i in v.starts)
  }

  ghost predicate Describes(v: View, f: Bytes, restarts: nat) {
    && restarts + 4 * |v.starts| <= |f|
    && v.starts != [] && v.starts[0] == 0
    && (forall j :: 0 <= j < |v.starts| ==> v.starts[j] <= |v.pairs|)
    && (forall j :: 0 < j < |v.starts| ==> v.starts[j] < |v.pairs|)
    && |v.offsets| == |v.pairs| + 1 && v.offsets[0] == 0 && v.offsets[|v.pairs|] == restarts
    && (forall i, j :: 0 <= i < j < |v.offsets| ==> v.offsets[i] < v.offsets[j])
    && (forall j :: StartAt(f, restarts, v, j))
    && (forall i :: EntryOk(f, restarts, v, i))
  }

  function ViewOf(l: Layout): View {
    View(l.pairs, l.starts, seq(|l.pairs| + 1, i requires 0 <= i <= |l.pairs| => Offset(l, i)))
  }

  /** Lengths and offsets fit the 32-bit fields that hold them. */
  ghost predicate Fits32(l: Layout) {
    && |Finished(l)| < TWO32
    && forall i :: 0 <= i < |l.pairs| ==> |l.pairs[i].key| < TWO32
  }

  lemma {:induction false} SliceOfJoin(a: Bytes, b: Bytes, p: nat)
    requires p <= |a|
    ensures (a + b)[p..|a|] == a[p..]
  {}

  /** A decoded entry gives back the key, from the shared part of the key before, and the value. */
  lemma {:induction false} EntryReadsBack(shared: nat, previous: Bytes, pair: Pair, tail: Bytes)
    requires shared <= |pair.key| < TWO32 && |pair.value| < TWO32
    requires shared <= |previous| && previous[..shared] == pair.key[..shared]
    ensures var h := DecodeEntry(EntryBytes(shared, pair) + tail);
            && h.Some? && h.value.shared == shared
            && h.value.nonShared + h.value.valueLength + |tail| == |h.value.rest|
            && previous[..shared] + h.value.rest[..h.value.nonShared] == pair.key
            && h.value.rest[h.value.nonShared..h.value.nonShared + h.value.valueLength] == pair.value
  {
    DecodesEntry(shared, pair, tail);
    assert pair.key[..shared] + pair.key[shared..] == pair.key;
  }

  /** The bytes of the data from entry `i` on. */
  lemma {:induction false} DataFrom(l: Layout, i: nat)
    requires i < |l.pairs|
    ensures Offset(l, i) < Offset(l, i + 1) <= |Data(l)|
    ensures Finished(l)[Offset(l, i)..|Data(l)|] == Entry(l, i) + Data(l)[Offset(l, i + 1)..]
  {
    ChunkAt(Entries(l), i, |l.pairs|);
    SliceOfJoin(Data(l), Trailer(l), Offset(l, i));
  }

  lemma {:induction false} ValueFits(l: Layout, i: nat)
    requires Fits32(l) && i < |l.pairs|
    ensures |l.pairs[i].value| < TWO32
  {
    DataFrom(l, i);
    assert |l.pairs[i].value| <= |Entry(l, i)| <= |Finished(l)|;
  }

  lemma {:induction false} EntryReads(l: Layout, i: nat)
    requires WellFormed(l) && Fits32(l) && i < |l.pairs|
    ensures |Data(l)| <= |Finished(l)|
    ensures ReadsAs(Finished(l), |Data(l)|, Offset(l, i), Offset(l, i + 1), PreviousKey(l, i), l.pairs[i],
                    i in l.starts)
  {
    DataFrom(l, i);
    ValueFits(l, i);
    EntryReadsBack(Shared(l, i), PreviousKey(l, i), l.pairs[i], Data(l)[Offset(l, i + 1)..]);
  }

  lemma {:induction false} EntryIsOk(l: Layout, i: nat)
    requires WellFormed(l) && Fits32(l)
    ensures EntryOk(Finished(l), |Data(l)|, ViewOf(l), i)
  {
    if i < |l.pairs| {
      EntryReads(l, i);
    }
  }

  lemma {:induction false} RestartBytes(l: Layout, j: nat)
    requires j < |l.starts|
    ensures |Data(l)| + 4 * j + 4 <= |Finished(l)|
    ensures Finished(l)[|Data(l)| + 4 * j..|Data(l)| + 4 * j + 4] == Fixed(4, RestartPoint(l, j))
  {
    FixedAllAt(RestartPoints(l), j);
    Inside(Data(l), FixedAll(RestartPoints(l)), Fixed(4, |l.starts|), 4 * j);
  }

  lemma {:induction false} Inside(a: Bytes, b: Bytes, c: Bytes, k: nat)
    requires k + 4 <= |b|
    ensures (a + (b + c))[|a| + k..|a| + k + 4] == b[k..k + 4]
  {}

  lemma {:induction false} StartIsAt(l: Layout, j: nat)
    requires WellFormed(l) && Fits32(l)
    ensures StartAt(Finished(l), |Data(l)|, ViewOf(l), j)
  {
    if j < |l.starts| {
      RestartBytes(l, j);
      OffsetsAscend(l, l.starts[j], |l.pairs|);
      Fixed32RoundTrip(RestartPoint(l, j));
    }
  }

  /** A finished block is described by its entries' offsets. */
  lemma {:induction false} FinishedDescribed(l: Layout)
    requires WellFormed(l) && Fits32(l)
    ensures Describes(ViewOf(l), Finished(l), |Data(l)|)
  {
    forall i, j | 0 <= i < j <= |l.pairs|
      ensures Offset(l, i) < Offset(l, j)
    {
      OffsetsAscend(l, i, j);
    }
    forall j
      ensures StartAt(Finished(l), |Data(l)|, ViewOf(l), j)
    {
      StartIsAt(l, j);
    }
    forall i
      ensures EntryOk(Finished(l), |Data(l)|, ViewOf(l), i)
    {
      EntryIsOk(l, i);
    }
  }
}
