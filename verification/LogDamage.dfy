/**
  Reading a log whose bytes may be anything (db/log_reader.cc): what is returned was stored under its
  checksum, fragment by fragment, and what is not returned is reported.
 */
module LogDamage {
  import opened Wrappers
  import opened Coding
  import opened LogRecords
  import opened LogFormat
  import opened Schemes
  import opened CrcErrors

  // ----- physical records -----

  /** A physical record lies whole in its block at `q`, with its length, its type and a sum that checks. */
  ghost predicate StoredAt(f: Bytes, scheme: Scheme, q: nat, kind: byte, payload: Bytes) {
    && q + HEADER + |payload| <= |f| && q + HEADER + |payload| <= BlockEnd(q)
    && f[q + 4] as nat + 256 * f[q + 5] as nat == |payload| && f[q + 6] == kind
    && f[q + HEADER..q + HEADER + |payload|] == payload
    && scheme.check(f[q..q + 4], kind, payload)
  }

  /** What the reader takes a physical record for. */
  predicate IsData(s: Physical) {
    s.kind != EOF && s.kind != BAD
  }

  lemma {:induction false} SliceSlice(f: Bytes, q: nat, end: nat, a: nat, b: nat)
    requires a <= b && q + b <= end <= |f|
    ensures f[q..end][a..b] == f[q + a..q + b]
  {
    var s := f[q..end];
    assert forall i :: a <= i < b ==> s[i] == f[q + i];
  }

  lemma {:induction false} SliceAt(f: Bytes, q: nat, end: nat, a: nat)
    requires q + a < end <= |f|
    ensures f[q..end][a] == f[q + a]
  {}

  lemma {:induction false} ParsedIsStored(f: Bytes, scheme: Scheme, q: nat, end: nat, last: bool)
    requires q + HEADER <= end <= |f| && end <= BlockEnd(q)
    requires IsData(Parse(f[q..end], scheme, q, |f|, last))
    ensures var s := Parse(f[q..end], scheme, q, |f|, last);
            s.drops == [] && s.pos == q + HEADER + |s.payload| && StoredAt(f, scheme, q, s.kind, s.payload)
  {
    var s := Parse(f[q..end], scheme, q, |f|, last);
    SliceSlice(f, q, end, 0, 4);
    SliceAt(f, q, end, 4);
    SliceAt(f, q, end, 5);
    SliceAt(f, q, end, 6);
    SliceSlice(f, q, end, HEADER, HEADER + |s.payload|);
  }

  /** A physical record that is found is stored where the search stopped, behind at most a trailer, and checks. */
  lemma {:induction false} FoundIsStored(f: Bytes, scheme: Scheme, p: nat)
    requires p <= |f| && IsData(Scan(f, scheme, p))
    ensures var s := Scan(f, scheme, p);
            && s.drops == [] && s.pos == Start(f, p) + HEADER + |s.payload|
            && StoredAt(f, scheme, Start(f, p), s.kind, s.payload)
  {
    var q := Start(f, p);
    var last := BlockEnd(q) > |f|;
    ParsedIsStored(f, scheme, q, if last then |f| else BlockEnd(q), last);
  }

  /** The end of the bytes that are read together with those at `q`. */
  function ChunkEnd(f: Bytes, q: nat): (r: nat) {
    if BlockEnd(q) > |f| then |f| else BlockEnd(q)
  }

  /** A record whose sum does not check is not returned, and the rest of its block is reported. */
  lemma {:induction false} BadSumIsReported(f: Bytes, scheme: Scheme, p: nat, kind: byte, payload: Bytes)
    requires p <= |f|
    requires var q := Start(f, p);
             && q + HEADER + |payload| <= ChunkEnd(f, q)
             && f[q + 4] as nat + 256 * f[q + 5] as nat == |payload| && f[q + 6] == kind
             && f[q + HEADER..q + HEADER + |payload|] == payload
             && !scheme.check(f[q..q + 4], kind, payload)
    requires !(kind == ZERO && payload == [])
    ensures var q := Start(f, p);
            Scan(f, scheme, p) == Physical(BAD, [], ChunkEnd(f, q), [ChunkEnd(f, q) - q])
  {
    var q := Start(f, p);
    var end := ChunkEnd(f, q);
    SliceSlice(f, q, end, 0, 4);
    SliceAt(f, q, end, 4);
    SliceAt(f, q, end, 5);
    SliceAt(f, q, end, 6);
    SliceSlice(f, q, end, HEADER, HEADER + |payload|);
  }

  /** A length that does not fit its block is reported, unless the file ends there. */
  lemma {:induction false} BadLengthIsReported(f: Bytes, scheme: Scheme, p: nat)
    requires p <= |f|
    requires var q := Start(f, p);
             q + HEADER <= ChunkEnd(f, q) && q + HEADER + f[q + 4] as nat + 256 * f[q + 5] as nat > ChunkEnd(f, q)
    ensures var q := Start(f, p);
            Scan(f, scheme, p) == if BlockEnd(q) > |f| then Physical(EOF, [], |f|, [])
                                  else Physical(BAD, [], BlockEnd(q), [BlockEnd(q) - q])
  {
    var q := Start(f, p);
    SliceAt(f, q, ChunkEnd(f, q), 4);
    SliceAt(f, q, ChunkEnd(f, q), 5);
  }

  /** With checksums on, one altered payload byte is enough: the record is gone, and reported. */
  lemma {:induction false} AlteredByteIsReported(f: Bytes, p: nat, kind: byte, before: Bytes, x: byte, y: byte,
                                                 behind: Bytes)
    requires p <= |f| && x != y
    requires var q := Start(f, p);
             && q + HEADER + |before + [y] + behind| <= ChunkEnd(f, q)
             && f[q + 4] as nat + 256 * f[q + 5] as nat == |before + [y] + behind| && f[q + 6] == kind
             && f[q + HEADER..q + HEADER + |before + [y] + behind|] == before + [y] + behind
             && f[q..q + 4] == LOG.sum(kind, before + [x] + behind)
    ensures var q := Start(f, p);
            Scan(f, LOG, p) == Physical(BAD, [], ChunkEnd(f, q), [ChunkEnd(f, q) - q])
  {
    AlteredPayloadFails(kind, before, x, y, behind);
    BadSumIsReported(f, LOG, p, kind, before + [y] + behind);
  }

  // ----- records -----

  /** A fragment is stored at `p`, behind its trailer bytes. */
  ghost predicate Link(f: Bytes, scheme: Scheme, p: nat, x: Fragment) {
    p <= |f| && p + x.pad == Start(f, p) && StoredAt(f, scheme, p + x.pad, x.kind, x.payload)
  }

  ghost function Linker(f: Bytes, scheme: Scheme): (nat, Fragment) -> bool {
    (p: nat, x: Fragment) => Link(f, scheme, p, x)
  }

  /** Fragments one behind the other from `p` on. */
  ghost predicate Linked(link: (nat, Fragment) -> bool, p: nat, xs: seq<Fragment>)
    decreases |xs|
  {
    xs != [] ==> link(p, xs[0]) && Linked(link, p + xs[0].Size(), xs[1..])
  }

  /** Fragments stored one behind the other from `p` on. */
  ghost predicate Chain(f: Bytes, scheme: Scheme, p: nat, xs: seq<Fragment>) {
    Linked(Linker(f, scheme), p, xs)
  }

  lemma {:induction false} JoinedMore(xs: seq<Fragment>, x: Fragment)
    ensures TotalSize(xs + [x]) == TotalSize(xs) + x.Size() && Joined(xs + [x]) == Joined(xs) + x.payload
  {
    if xs == [] {
      assert [] + [x] == [x];
      OneJoined(x);
    } else {
      assert (xs + [x])[1..] == xs[1..] + [x];
      JoinedMore(xs[1..], x);
    }
  }

  lemma {:induction false} LinkedMore(link: (nat, Fragment) -> bool, p: nat, xs: seq<Fragment>, x: Fragment)
    requires Linked(link, p, xs) && link(p + TotalSize(xs), x)
    ensures Linked(link, p, xs + [x])
    decreases |xs|
  {
    if xs == [] {
      assert [] + [x] == [x] && [x][1..] == [] && TotalSize([]) == 0;
    } else {
      LinkedMore(link, p + xs[0].Size(), xs[1..], x);
      assert (xs + [x])[1..] == xs[1..] + [x];
    }
  }

  /** A first fragment and middle ones. */
  predicate Opened(xs: seq<Fragment>) {
    xs != [] && xs[0].kind == FIRST && forall i :: 0 < i < |xs| ==> xs[i].kind == MIDDLE
  }

  /** One full fragment, or a first one, middle ones and a last one. */
  predicate Complete(xs: seq<Fragment>) {
    || (|xs| == 1 && xs[0].kind == FULL)
    || (|xs| >= 2 && Opened(xs[..|xs| - 1]) && xs[|xs| - 1].kind == LAST)
  }

  lemma {:induction false} OneFound(f: Bytes, scheme: Scheme, p: nat) returns (x: Fragment)
    requires p <= |f| && IsData(Scan(f, scheme, p))
    ensures var s := Scan(f, scheme, p);
            && x == Fragment(Start(f, p) - p, s.kind, s.payload) && Link(f, scheme, p, x) && Chain(f, scheme, p, [x])
            && s.pos == p + x.Size() && s.drops == []
  {
    FoundIsStored(f, scheme, p);
    var s := Scan(f, scheme, p);
    x := Fragment(Start(f, p) - p, s.kind, s.payload);
    assert [x][1..] == [];
  }

  /** What has been put together so far is the payload of an open chain that ends here. */
  ghost predicate Pending(f: Bytes, scheme: Scheme, from: nat, p: nat, fragmented: bool, scratch: Bytes) {
    if fragmented then exists at, xs :: IsPending(f, scheme, from, p, scratch, at, xs) else scratch == []
  }

  ghost predicate IsPending(f: Bytes, scheme: Scheme, from: nat, p: nat, scratch: Bytes, at: nat, xs: seq<Fragment>) {
    from <= at && Chain(f, scheme, at, xs) && Opened(xs) && at + TotalSize(xs) == p && Joined(xs) == scratch
  }

  /** A record is the payload of a complete chain, at `from` or behind it and before `to`. */
  ghost predicate IsRecord(f: Bytes, scheme: Scheme, from: nat, to: nat, record: Bytes) {
    exists at, xs :: IsRecordAt(f, scheme, from, to, record, at, xs)
  }

  ghost predicate IsRecordAt(f: Bytes, scheme: Scheme, from: nat, to: nat, record: Bytes, at: nat, xs: seq<Fragment>) {
    from <= at && Chain(f, scheme, at, xs) && Complete(xs) && at + TotalSize(xs) == to && Joined(xs) == record
  }

  lemma {:induction false} OneJoined(x: Fragment)
    ensures TotalSize([x]) == x.Size() && Joined([x]) == x.payload
  {
    assert [x][1..] == [] && TotalSize([]) == 0 && Joined([]) == [] && x.payload + [] == x.payload;
  }

  lemma {:induction false} PendingStep(f: Bytes, scheme: Scheme, from: nat, p: nat, fragmented: bool, scratch: Bytes)
    requires from <= p <= |f| && Pending(f, scheme, from, p, fragmented, scratch)
    ensures var s := Scan(f, scheme, p);
            match Absorb(s, fragmented, scratch)
            case Done(record, _) => record.Some? ==> IsRecord(f, scheme, from, s.pos, record.value)
            case More(going, sofar, _) => Pending(f, scheme, from, s.pos, going, sofar)
  {
    var s := Scan(f, scheme, p);
    if IsData(s) {
      var x := OneFound(f, scheme, p);
      OneJoined(x);
      if s.kind == FULL {
        assert IsRecordAt(f, scheme, from, s.pos, s.payload, p, [x]);
      } else if s.kind == FIRST {
        assert IsPending(f, scheme, from, s.pos, s.payload, p, [x]);
      } else if fragmented && (s.kind == MIDDLE || s.kind == LAST) {
        var at, xs :| IsPending(f, scheme, from, p, scratch, at, xs);
        ChainStep(f, scheme, from, p, scratch, at, xs, x, s.pos);
      }
    }
  }

  lemma {:induction false} ChainStep(f: Bytes, scheme: Scheme, from: nat, p: nat, scratch: Bytes, at: nat,
                                     xs: seq<Fragment>, x: Fragment, to: nat)
    requires IsPending(f, scheme, from, p, scratch, at, xs) && Link(f, scheme, p, x) && to == p + x.Size()
    ensures x.kind == MIDDLE ==> Pending(f, scheme, from, to, true, scratch + x.payload)
    ensures x.kind == LAST ==> IsRecord(f, scheme, from, to, scratch + x.payload)
  {
    LinkedMore(Linker(f, scheme), at, xs, x);
    JoinedMore(xs, x);
    if x.kind == MIDDLE {
      assert IsPending(f, scheme, from, to, scratch + x.payload, at, xs + [x]);
    }
    if x.kind == LAST {
      assert (xs + [x])[..|xs|] == xs;
      assert IsRecordAt(f, scheme, from, to, scratch + x.payload, at, xs + [x]);
    }
  }

  /** The next record of any file was stored whole, in fragments that all check. */
  lemma {:induction false} AssembledIsStored(f: Bytes, scheme: Scheme, from: nat, p: nat, fragmented: bool,
                                             scratch: Bytes)
    requires from <= p <= |f| && Pending(f, scheme, from, p, fragmented, scratch)
    ensures var r := Assemble(TapeOf(f, scheme), p, fragmented, scratch);
            r.record.Some? ==> IsRecord(f, scheme, from, r.pos, r.record.value)
    decreases |f| - p
  {
    var t := TapeOf(f, scheme);
    var s := Scan(f, scheme, p);
    assert t.scan(p) == s;
    PendingStep(f, scheme, from, p, fragmented, scratch);
    match Absorb(s, fragmented, scratch)
    case Done(record, drops) =>
    case More(going, sofar, drops) =>
      AssembledIsStored(f, scheme, from, s.pos, going, sofar);
  }

  /** Records are complete chains, each behind the one before. */
  ghost predicate AllStored(f: Bytes, scheme: Scheme, p: nat, records: seq<Bytes>)
    decreases |records|
  {
    records != [] ==> exists to :: IsRecord(f, scheme, p, to, records[0]) && AllStored(f, scheme, to, records[1..])
  }

  lemma {:induction false} ReadIsStored(f: Bytes, scheme: Scheme, p: nat)
    requires p <= |f|
    ensures AllStored(f, scheme, p, ReadAll(TapeOf(f, scheme), p).records)
    decreases |f| - p
  {
    var t := TapeOf(f, scheme);
    var r := Assemble(t, p, false, []);
    AssembledIsStored(f, scheme, p, p, false, []);
    if r.record.Some? {
      AssembleAdvances(t, p, false, []);
      ReadIsStored(f, scheme, r.pos);
      var all := ReadAll(t, p).records;
      assert all[1..] == ReadAll(t, r.pos).records;
      assert IsRecord(f, scheme, p, r.pos, all[0]);
    }
  }

  /** On any bytes: the records returned were stored in this order, and all their fragments check. */
  lemma {:induction false} ReadLogIsStored(f: Bytes, scheme: Scheme)
    ensures AllStored(f, scheme, 0, ReadLog(f, scheme).records)
  {
    ReadIsStored(f, scheme, 0);
  }

  // ----- what is reported -----

  function Total(drops: seq<nat>): nat {
    if drops == [] then 0 else drops[0] + Total(drops[1..])
  }

  lemma {:induction false} TotalConcat(a: seq<nat>, b: seq<nat>)
    ensures Total(a + b) == Total(a) + Total(b)
  {
    if a == [] {
      assert a + b == b;
    } else {
      assert (a + b)[1..] == a[1..] + b;
      TotalConcat(a[1..], b);
    }
  }

  /** What a physical read accounts for: the payload it found, and the bytes that it reports itself. */
  function Gain(s: Physical): nat {
    (if IsData(s) then |s.payload| else 0) + Total(s.drops)
  }

  /** What all physical reads from `p` on account for. */
  function Coming(t: Tape, p: nat): nat
    requires Steady(t) && p <= t.size
    decreases t.size - p
  {
    var s := t.scan(p);
    Gain(s) + (if s.kind == EOF then 0 else Coming(t, s.pos))
  }

  /** No payload is lost without being reported. */
  lemma {:induction false} AbsorbAccounts(s: Physical, fragmented: bool, scratch: Bytes)
    requires !fragmented ==> scratch == []
    ensures match Absorb(s, fragmented, scratch)
            case Done(record, drops) =>
              && |scratch| + Gain(s) == Total(drops) + (if record.Some? then |record.value| else |scratch|)
              && (record.None? <==> s.kind == EOF)
            case More(going, sofar, drops) =>
              && |scratch| + Gain(s) == Total(drops) + |sofar| && (!going ==> sofar == []) && s.kind != EOF
  {
    var lost := |s.payload| + (if fragmented then |scratch| else 0);
    OneTotal(lost);
    OneTotal(|s.payload|);
    OneTotal(|scratch|);
    TotalConcat(s.drops, [lost]);
    TotalConcat(s.drops, [|s.payload|]);
    TotalConcat(s.drops, [|scratch|]);
    assert s.drops + [] == s.drops;
  }

  lemma {:induction false} OneTotal(n: nat)
    ensures Total([n]) == n
  {
    assert [n][1..] == [] && Total([]) == 0;
  }

  /** What is left over at the end: the payload of a chain that the end of the file cuts off. */
  ghost predicate IsTail(f: Bytes, scheme: Scheme, left: Bytes) {
    exists p, going :: IsTailAt(f, scheme, left, p, going)
  }

  ghost predicate IsTailAt(f: Bytes, scheme: Scheme, left: Bytes, p: nat, going: bool) {
    p <= |f| && Scan(f, scheme, p).kind == EOF && Pending(f, scheme, 0, p, going, left)
  }

  /** Reading one record: its bytes and the reported ones are all there is, but for a cut-off chain at the end. */
  lemma {:induction false} AssembleAccounts(f: Bytes, scheme: Scheme, p: nat, fragmented: bool, scratch: Bytes)
      returns (left: Bytes)
    requires p <= |f| && Pending(f, scheme, 0, p, fragmented, scratch) && (!fragmented ==> scratch == [])
    ensures var t := TapeOf(f, scheme);
            var r := Assemble(t, p, fragmented, scratch);
            |scratch| + Coming(t, p) ==
            Total(r.drops) + (if r.record.Some? then |r.record.value| + Coming(t, r.pos) else |left|)
    ensures Assemble(TapeOf(f, scheme), p, fragmented, scratch).record.None? ==> IsTail(f, scheme, left)
    decreases |f| - p
  {
    var t := TapeOf(f, scheme);
    var s := Scan(f, scheme, p);
    assert t.scan(p) == s;
    AbsorbAccounts(s, fragmented, scratch);
    PendingStep(f, scheme, 0, p, fragmented, scratch);
    left := scratch;
    match Absorb(s, fragmented, scratch)
    case Done(record, drops) =>
      if record.None? {
        assert IsTailAt(f, scheme, left, p, fragmented);
      }
    case More(going, sofar, drops) =>
      left := AssembleAccounts(f, scheme, s.pos, going, sofar);
      TotalConcat(drops, Assemble(t, s.pos, going, sofar).drops);
  }

  function Sizes(records: seq<Bytes>): nat {
    if records == [] then 0 else |records[0]| + Sizes(records[1..])
  }

  lemma {:induction false} ReadAccounts(f: Bytes, scheme: Scheme, p: nat) returns (left: Bytes)
    requires p <= |f|
    ensures var t := TapeOf(f, scheme);
            Coming(t, p) == Total(ReadAll(t, p).drops) + Sizes(ReadAll(t, p).records) + |left|
    ensures IsTail(f, scheme, left)
    decreases |f| - p
  {
    var t := TapeOf(f, scheme);
    var r := Assemble(t, p, false, []);
    left := AssembleAccounts(f, scheme, p, false, []);
    if r.record.Some? {
      AssembleAdvances(t, p, false, []);
      left := ReadAccounts(f, scheme, r.pos);
      TotalConcat(r.drops, ReadAll(t, r.pos).drops);
      assert ReadAll(t, p).records[1..] == ReadAll(t, r.pos).records;
    }
  }

  /**
    On any bytes: what is returned and what is reported lost is all that the physical reads account for, but
    for a record that the end of the file cuts off.
   */
  lemma {:induction false} NothingIsLostSilently(f: Bytes, scheme: Scheme) returns (left: Bytes)
    ensures Coming(TapeOf(f, scheme), 0) ==
            Total(ReadLog(f, scheme).drops) + Sizes(ReadLog(f, scheme).records) + |left|
    ensures IsTail(f, scheme, left)
  {
    left := ReadAccounts(f, scheme, 0);
  }
}
