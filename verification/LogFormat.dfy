/**
  The layout of a log file (db/log_format.h, db/log_writer.cc, db/log_reader.cc): what writing a record
  appends, and what reading at a position finds, both as functions of the bytes.
 */
module LogFormat {
  import opened Wrappers
  import opened Coding
  import opened LogRecords
  import opened Schemes

  const BLOCK: nat := 32768
  // ----- what the writer appends -----

  /** One physical record. */
  function Encode(scheme: Scheme, kind: byte, payload: Bytes): (r: Bytes)
    ensures |r| == HEADER + |payload|
  {
    scheme.sum(kind, payload) + Fixed(2, |payload|) + [kind] + payload
  }

  function Zeros(n: nat): (r: Bytes)
    ensures |r| == n
  {
    seq(n, _ => 0)
  }

  function BlockEnd(p: nat): (r: nat)
    ensures p < r <= p + BLOCK && r % 32768 == 0
  {
    p / 32768 * 32768 + 32768
  }

  /** Trailer bytes before the next physical record at file length `p`. */
  function Pad(p: nat): (r: nat)
    ensures r < HEADER && BlockEnd(p + r) - (p + r) >= HEADER
  {
    if BlockEnd(p) - p < HEADER then BlockEnd(p) - p else 0
  }

  /** Payload of the first fragment of `left` bytes written at file length `p`. */
  function Room(p: nat, left: nat): (r: nat)
    ensures r <= left && p + Pad(p) + HEADER + r <= BlockEnd(p + Pad(p))
    ensures r < left ==> p + Pad(p) + HEADER + r == BlockEnd(p + Pad(p))
  {
    var avail := BlockEnd(p + Pad(p)) - (p + Pad(p)) - HEADER;
    if left < avail then left else avail
  }

  function EncodedFragment(scheme: Scheme, x: Fragment): (r: Bytes)
    ensures |r| == x.Size()
  {
    Zeros(x.pad) + Encode(scheme, x.kind, x.payload)
  }

  /** How a record is cut up at file length `p`; `begin` until its first fragment is out. */
  function Fragments(p: nat, data: Bytes, begin: bool): (r: seq<Fragment>)
    ensures r != []
    decreases |data|, BlockEnd(p) - p == HEADER
  {
    var len := Room(p, |data|);
    var x := Fragment(Pad(p), KindOf(begin, len == |data|), data[..len]);
    if len == |data| then [x] else [x] + Fragments(p + x.Size(), data[len..], false)
  }

  function Encoded(scheme: Scheme, xs: seq<Fragment>): Bytes {
    if xs == [] then [] else EncodedFragment(scheme, xs[0]) + Encoded(scheme, xs[1..])
  }

  /** The bytes a record appends to a file of length `p`. */
  function Emitted(scheme: Scheme, p: nat, data: Bytes): Bytes {
    Encoded(scheme, Fragments(p, data, true))
  }

  function Emitter(scheme: Scheme): (nat, Bytes) -> Bytes {
    (p: nat, data: Bytes) => Emitted(scheme, p, data)
  }

  /** A log file written from the start. */
  function LogOf(scheme: Scheme, records: seq<Bytes>): Bytes {
    Log(Emitter(scheme), 0, records)
  }

  // ----- what a reader finds -----

  /** The physical record at the front of a buffer that begins at `p` of a file of `size` bytes. */
  function Parse(buffer: Bytes, scheme: Scheme, p: nat, size: nat, last: bool): (r: Physical)
    requires HEADER <= |buffer| && p + |buffer| <= size
    ensures r.pos <= size && (r.kind != EOF ==> r.pos > p)
  {
    var length := buffer[4] as nat + 256 * buffer[5] as nat;
    var kind := buffer[6];
    if HEADER + length > |buffer| then
      if last then Physical(EOF, [], size, []) else Physical(BAD, [], p + |buffer|, [|buffer|])
    else if kind == ZERO && length == 0 then
      Physical(BAD, [], p + |buffer|, [])
    else if !scheme.check(buffer[..4], kind, buffer[HEADER..HEADER + length]) then
      Physical(BAD, [], p + |buffer|, [|buffer|])
    else
      Physical(kind, buffer[HEADER..HEADER + length], p + HEADER + length, [])
  }

  /** Where the next header can be: past the trailer, if the rest of a whole block has no room for one. */
  function Start(f: Bytes, p: nat): (r: nat)
    requires p <= |f|
    ensures p <= r <= |f|
  {
    if p + Pad(p) <= |f| then p + Pad(p) else p
  }

  /** The next physical record at or after `p`. */
  function Scan(f: Bytes, scheme: Scheme, p: nat): (r: Physical)
    requires p <= |f|
    ensures r.pos <= |f| && (r.kind != EOF ==> r.pos > p)
  {
    var q := Start(f, p);
    var last := BlockEnd(q) > |f|;
    var end := if last then |f| else BlockEnd(q);
    if end - q >= HEADER then Parse(f[q..end], scheme, q, |f|, last) else Physical(EOF, [], |f|, [])
  }

  /** A file as the reader sees it. */
  function TapeOf(f: Bytes, scheme: Scheme): (t: Tape)
    ensures Steady(t) && t.size == |f|
  {
    Tape(|f|, (p: nat) => if p <= |f| then Scan(f, scheme, p) else Physical(EOF, [], |f|, []))
  }

  // ----- reading back what was written -----

  lemma {:induction false} LengthBytes(scheme: Scheme, kind: byte, payload: Bytes)
    requires |payload| < 0x1_0000
    ensures var r := Encode(scheme, kind, payload);
            r[..4] == scheme.sum(kind, payload) && r[4] as nat + 256 * r[5] as nat == |payload|
            && r[6] == kind && r[HEADER..] == payload
  {
    assert Fixed(2, |payload|) == [(|payload| % 256) as byte] + Fixed(1, |payload| / 256);
    assert Fixed(1, |payload| / 256) == [(|payload| / 256 % 256) as byte];
  }

  /** A whole physical record is read as it was written. */
  lemma {:induction false} ParsesWhole(buffer: Bytes, scheme: Scheme, p: nat, size: nat, last: bool, kind: byte,
                                       payload: Bytes)
    requires Sound(scheme) && p + |buffer| <= size && |payload| < 0x1_0000 && FULL <= kind <= LAST
    requires HEADER + |payload| <= |buffer| && buffer[..HEADER + |payload|] == Encode(scheme, kind, payload)
    ensures Parse(buffer, scheme, p, size, last) == Physical(kind, payload, p + HEADER + |payload|, [])
  {
    LengthBytes(scheme, kind, payload);
    var r := buffer[..HEADER + |payload|];
    assert buffer[..4] == r[..4] && buffer[HEADER..HEADER + |payload|] == r[HEADER..];
  }

  /** A physical record whose payload is cut off by the end of the file reads as the end. */
  lemma {:induction false} ParsesCut(buffer: Bytes, scheme: Scheme, p: nat, size: nat, kind: byte, payload: Bytes)
    requires HEADER <= |buffer| < HEADER + |payload| && |payload| < 0x1_0000 && p + |buffer| <= size
    requires buffer == Encode(scheme, kind, payload)[..|buffer|]
    ensures Parse(buffer, scheme, p, size, true) == Physical(EOF, [], size, [])
  {
    LengthBytes(scheme, kind, payload);
  }

  // ----- fragments of one record -----

  /** A fragment at `p` starts where a header still fits and ends inside that block. */
  predicate Fits(p: nat, x: Fragment) {
    x.pad == Pad(p) && p + x.Size() <= BlockEnd(p + x.pad)
  }

  predicate Placed(p: nat, xs: seq<Fragment>)
    decreases |xs|
  {
    xs == [] || (Fits(p, xs[0]) && Placed(p + xs[0].Size(), xs[1..]))
  }

  function FirstFragment(p: nat, data: Bytes, begin: bool): (x: Fragment)
    ensures x.payload <= data
  {
    var len := Room(p, |data|);
    Fragment(Pad(p), KindOf(begin, len == |data|), data[..len])
  }

  lemma {:induction false} FirstFits(p: nat, data: Bytes, begin: bool)
    ensures var x := FirstFragment(p, data, begin); Fits(p, x) && x.kind == KindOf(begin, x.payload == data)
  {
    var len := Room(p, |data|);
    assert len == |data| <==> data[..len] == data;
  }

  /** An empty fragment that is not the last fills up its block, and the next one does not. */
  lemma {:induction false} FirstShrinks(p: nat, data: Bytes, begin: bool)
    ensures var x := FirstFragment(p, data, begin);
            || x.payload == data || |x.payload| > 0
            || (BlockEnd(p) - p == HEADER && BlockEnd(p + x.Size()) - (p + x.Size()) != HEADER)
  {}

  lemma {:induction false} FragmentsAre(p: nat, data: Bytes, begin: bool)
    ensures var x := FirstFragment(p, data, begin);
            Fragments(p, data, begin) ==
            [x] + (if x.payload == data then [] else Fragments(p + x.Size(), data[|x.payload|..], false))
  {}

  lemma {:induction false} ShapedCons(x: Fragment, rest: seq<Fragment>, begin: bool)
    requires x.kind == KindOf(begin, rest == []) && (rest != [] ==> Shaped(rest, false))
    ensures Shaped([x] + rest, begin)
  {
    assert ([x] + rest)[1..] == rest;
  }

  lemma {:induction false} PlacedCons(p: nat, x: Fragment, rest: seq<Fragment>)
    requires Fits(p, x) && Placed(p + x.Size(), rest)
    ensures Placed(p, [x] + rest)
  {
    assert ([x] + rest)[1..] == rest;
  }

  lemma {:induction false} JoinedCons(x: Fragment, rest: seq<Fragment>)
    ensures Joined([x] + rest) == x.payload + Joined(rest)
  {
    assert ([x] + rest)[1..] == rest;
  }

  /** The fragments lie inside blocks, come in order and carry the whole record. */
  ghost predicate Carry(p: nat, xs: seq<Fragment>, data: Bytes, begin: bool) {
    Placed(p, xs) && Shaped(xs, begin) && Joined(xs) == data
  }

  lemma {:induction false} CarryCons(p: nat, x: Fragment, rest: seq<Fragment>, data: Bytes, begin: bool)
    requires Fits(p, x) && x.payload <= data && x.kind == KindOf(begin, rest == [])
    requires if rest == [] then x.payload == data else Carry(p + x.Size(), rest, data[|x.payload|..], false)
    ensures Carry(p, [x] + rest, data, begin)
  {
    PlacedCons(p, x, rest);
    ShapedCons(x, rest, begin);
    JoinedCons(x, rest);
    if rest == [] {
      assert data == x.payload + [];
    } else {
      assert data == x.payload + data[|x.payload|..];
    }
  }

  lemma {:induction false} FragmentsFit(p: nat, data: Bytes, begin: bool)
    ensures Carry(p, Fragments(p, data, begin), data, begin)
    decreases |data|, BlockEnd(p) - p == HEADER
  {
    var x := FirstFragment(p, data, begin);
    FragmentsAre(p, data, begin);
    FirstFits(p, data, begin);
    FirstShrinks(p, data, begin);
    if x.payload == data {
      CarryCons(p, x, [], data, begin);
    } else {
      FragmentsFit(p + x.Size(), data[|x.payload|..], false);
      CarryCons(p, x, Fragments(p + x.Size(), data[|x.payload|..], false), data, begin);
    }
  }

  lemma {:induction false} ScansFragment(f: Bytes, scheme: Scheme, p: nat, x: Fragment)
    requires Sound(scheme) && FULL <= x.kind <= LAST && Fits(p, x) && Carries(f, p, EncodedFragment(scheme, x))
    ensures Scan(f, scheme, p) == if p + x.Size() <= |f| then Physical(x.kind, x.payload, p + x.Size(), [])
                                  else Physical(EOF, [], |f|, [])
  {
    CarriesParts(f, p, Zeros(x.pad), Encode(scheme, x.kind, x.payload));
    var s := p + x.pad;
    if s <= |f| {
      ScansAt(f, scheme, s, x.kind, x.payload);
    }
  }

  lemma {:induction false} ScansAt(f: Bytes, scheme: Scheme, s: nat, kind: byte, payload: Bytes)
    requires Sound(scheme) && FULL <= kind <= LAST && BlockEnd(s) - s >= HEADER && s + HEADER + |payload| <= BlockEnd(s)
    requires Carries(f, s, Encode(scheme, kind, payload))
    ensures Scan(f, scheme, s) ==
            if s + HEADER + |payload| <= |f| then Physical(kind, payload, s + HEADER + |payload|, [])
            else Physical(EOF, [], |f|, [])
  {
    var last := BlockEnd(s) > |f|;
    var end := if last then |f| else BlockEnd(s);
    if s + HEADER + |payload| <= |f| {
      assert f[s..end][..HEADER + |payload|] == f[s..s + HEADER + |payload|];
      ParsesWhole(f[s..end], scheme, s, |f|, last, kind, payload);
    } else if s + HEADER <= |f| {
      ParsesCut(f[s..], scheme, s, |f|, kind, payload);
    }
  }

  lemma {:induction false} FindsFragments(f: Bytes, scheme: Scheme, p: nat, xs: seq<Fragment>)
    requires Sound(scheme) && Placed(p, xs) && Carries(f, p, Encoded(scheme, xs))
    requires forall i :: 0 <= i < |xs| ==> FULL <= xs[i].kind <= LAST
    ensures Finds(TapeOf(f, scheme), p, xs)
    decreases |xs|
  {
    if xs != [] {
      CarriesParts(f, p, EncodedFragment(scheme, xs[0]), Encoded(scheme, xs[1..]));
      ScansFragment(f, scheme, p, xs[0]);
      if p + xs[0].Size() <= |f| {
        FindsFragments(f, scheme, p + xs[0].Size(), xs[1..]);
      }
    }
  }

  lemma {:induction false} EncodedSize(scheme: Scheme, xs: seq<Fragment>)
    ensures |Encoded(scheme, xs)| == TotalSize(xs)
  {
    if xs != [] {
      EncodedSize(scheme, xs[1..]);
    }
  }

  lemma {:induction false} AssemblesRecord(f: Bytes, scheme: Scheme, p: nat, data: Bytes)
    requires Sound(scheme) && Carries(f, p, Emitted(scheme, p, data))
    ensures Assemble(TapeOf(f, scheme), p, false, []) == Outcome(|f|, p, |Emitted(scheme, p, data)|, data)
  {
    var xs := Fragments(p, data, true);
    FragmentsFit(p, data, true);
    ShapedKinds(xs, true);
    FindsFragments(f, scheme, p, xs);
    EncodedSize(scheme, xs);
    AssemblesFragments(TapeOf(f, scheme), p, xs, true, []);
    assert [] + data == data;
  }

  lemma {:induction false} TapeGives(f: Bytes, scheme: Scheme)
    requires Sound(scheme)
    ensures Gives(TapeOf(f, scheme), f, Emitter(scheme))
  {
    var t := TapeOf(f, scheme);
    forall p, data
      ensures GivesAt(t, f, Emitter(scheme), p, data)
    {
      if Carries(f, p, Emitted(scheme, p, data)) {
        AssemblesRecord(f, scheme, p, data);
      }
    }
  }

  // ----- whole logs -----

  /** What a reader that starts at the front of a file returns, record by record. */
  function ReadLog(f: Bytes, scheme: Scheme): Replay {
    ReadAll(TapeOf(f, scheme), 0)
  }

  /**
    Crash safety: whatever prefix of a log survives, reading it gives exactly the records that lie
    wholly inside the prefix, and reports no loss.
   */
  lemma {:induction false} EveryPrefixReadsBack(scheme: Scheme, records: seq<Bytes>, n: nat, k: nat)
    requires Sound(scheme) && n <= |LogOf(scheme, records)| && Whole(Emitter(scheme), 0, records, n, k)
    ensures ReadLog(LogOf(scheme, records)[..n], scheme) == Replay(records[..k], [])
  {
    var f := LogOf(scheme, records)[..n];
    TapeGives(f, scheme);
    assert f[0..] == f;
    WholeSurvive(Emitter(scheme), 0, records, n, k);
    ReadsBack(TapeOf(f, scheme), f, Emitter(scheme), 0, records);
  }

  /** The round trip: a log that survives whole is read back whole. */
  lemma {:induction false} LogRoundTrip(scheme: Scheme, records: seq<Bytes>)
    requires Sound(scheme)
    ensures ReadLog(LogOf(scheme, records), scheme) == Replay(records, [])
  {
    var all := LogOf(scheme, records);
    assert records[..|records|] == records && all[..|all|] == all;
    EveryPrefixReadsBack(scheme, records, |all|, |records|);
  }
}
