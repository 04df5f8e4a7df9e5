/**
  Records put together from physical records (ReadRecord in db/log_reader.cc), over any source of
  physical records.
 */
module LogRecords {
  import opened Wrappers

  const HEADER: nat := 7

  const ZERO: byte := 0
  const FULL: byte := 1
  const FIRST: byte := 2
  const MIDDLE: byte := 3
  const LAST: byte := 4
  /** The reader's own outcomes share the numbering of stored record types. */
  const EOF: byte := 5
  const BAD: byte := 6

  function KindOf(begin: bool, end: bool): byte {
    if begin && end then FULL else if begin then FIRST else if end then LAST else MIDDLE
  }

  /** One physical read: the type found, its payload, where reading goes on, and the bytes reported lost. */
  datatype Physical = Physical(kind: byte, payload: Bytes, pos: nat, drops: seq<nat>)

  /** A file as the reader sees it: its size, and what a physical read at each position finds. */
  datatype Tape = Tape(size: nat, scan: nat -> Physical)

  /** Physical reads stay inside the file and move forward until they find its end. */
  ghost predicate Steady(t: Tape) {
    forall p: nat :: p <= t.size ==> t.scan(p).pos <= t.size && (t.scan(p).kind != EOF ==> t.scan(p).pos > p)
  }

  datatype Logical = Logical(record: Option<Bytes>, pos: nat, drops: seq<nat>)

  function LostScratch(fragmented: bool, scratch: Bytes): seq<nat> {
    if fragmented && scratch != [] then [|scratch|] else []
  }

  /** What one physical record does to the record being put together. */
  datatype Absorbed =
    | Done(record: Option<Bytes>, drops: seq<nat>)
    | More(fragmented: bool, scratch: Bytes, drops: seq<nat>)

  function Absorb(s: Physical, fragmented: bool, scratch: Bytes): Absorbed {
    if s.kind == FULL then
      Done(Some(s.payload), s.drops + LostScratch(fragmented, scratch))
    else if s.kind == FIRST then
      More(true, s.payload, s.drops + LostScratch(fragmented, scratch))
    else if s.kind == MIDDLE then
      if !fragmented then More(false, scratch, s.drops + [|s.payload|]) else More(true, scratch + s.payload, s.drops)
    else if s.kind == LAST then
      if !fragmented then More(false, scratch, s.drops + [|s.payload|]) else Done(Some(scratch + s.payload), s.drops)
    else if s.kind == EOF then
      Done(None, s.drops)
    else if s.kind == BAD then
      More(false, [], s.drops + (if fragmented then [|scratch|] else []))
    else
      More(false, [], s.drops + [|s.payload| + (if fragmented then |scratch| else 0)])
  }

  /** The next whole record, given what has been put together of it so far. */
  function Assemble(t: Tape, p: nat, fragmented: bool, scratch: Bytes): (r: Logical)
    requires Steady(t) && p <= t.size
    ensures r.pos <= t.size
    decreases t.size - p
  {
    var s := t.scan(p);
    match Absorb(s, fragmented, scratch)
    case Done(record, drops) => Logical(record, s.pos, drops)
    case More(going, sofar, drops) =>
      var r := Assemble(t, s.pos, going, sofar);
      r.(drops := drops + r.drops)
  }

  lemma {:induction false} AssembleAdvances(t: Tape, p: nat, fragmented: bool, scratch: Bytes)
    requires Steady(t) && p <= t.size && Assemble(t, p, fragmented, scratch).record.Some?
    ensures Assemble(t, p, fragmented, scratch).pos > p
    decreases t.size - p
  {
    var s := t.scan(p);
    var next := Absorb(s, fragmented, scratch);
    if next.More? {
      var r := Assemble(t, s.pos, next.fragmented, next.scratch);
      assert Assemble(t, p, fragmented, scratch) == r.(drops := next.drops + r.drops);
      AssembleAdvances(t, s.pos, next.fragmented, next.scratch);
    }
  }

  datatype Replay = Replay(records: seq<Bytes>, drops: seq<nat>)

  /** Reading record after record until there is none. */
  function ReadAll(t: Tape, p: nat): Replay
    requires Steady(t) && p <= t.size
    decreases t.size - p
  {
    var r := Assemble(t, p, false, []);
    if r.record.None? then
      Replay([], r.drops)
    else
      AssembleAdvances(t, p, false, []);
      var more := ReadAll(t, r.pos);
      Replay([r.record.value] + more.records, r.drops + more.drops)
  }

  // ----- the fragments of one record -----

  /** A physical record and the trailer bytes in front of it. */
  datatype Fragment = Fragment(pad: nat, kind: byte, payload: Bytes) {
    function Size(): nat {
      pad + HEADER + |payload|
    }
  }

  function TotalSize(xs: seq<Fragment>): nat {
    if xs == [] then 0 else xs[0].Size() + TotalSize(xs[1..])
  }

  function Joined(xs: seq<Fragment>): Bytes {
    if xs == [] then [] else xs[0].payload + Joined(xs[1..])
  }

  /** First, middle and last fragments in order, or a single full one. */
  predicate Shaped(xs: seq<Fragment>, begin: bool) {
    xs != [] && xs[0].kind == KindOf(begin, |xs| == 1) && (|xs| > 1 ==> Shaped(xs[1..], false))
  }

  lemma {:induction false} ShapedKinds(xs: seq<Fragment>, begin: bool)
    requires Shaped(xs, begin)
    ensures forall i :: 0 <= i < |xs| ==> FULL <= xs[i].kind <= LAST
  {
    if |xs| > 1 {
      ShapedKinds(xs[1..], false);
      assert forall i :: 0 < i < |xs| ==> xs[i] == xs[1..][i - 1];
    }
  }

  /** What a scan finds where fragment `x` is stored. */
  function Found(size: nat, p: nat, x: Fragment): Physical {
    if p + x.Size() <= size then Physical(x.kind, x.payload, p + x.Size(), []) else Physical(EOF, [], size, [])
  }

  /** Scanning from `p` finds the fragments one after the other. */
  ghost predicate Finds(t: Tape, p: nat, xs: seq<Fragment>)
    decreases |xs|
  {
    p <= t.size && xs != [] ==> t.scan(p) == Found(t.size, p, xs[0]) && Finds(t, p + xs[0].Size(), xs[1..])
  }

  /** What reading a record of `n` bytes at `p` gives. */
  function Outcome(size: nat, p: nat, n: nat, record: Bytes): Logical {
    if p + n <= size then Logical(Some(record), p + n, []) else Logical(None, size, [])
  }

  lemma {:induction false} AssemblesMore(t: Tape, p: nat, begin: bool, scratch: Bytes)
    requires Steady(t) && p <= t.size && (begin ==> scratch == [])
    requires t.scan(p).kind == KindOf(begin, false) && t.scan(p).drops == []
    ensures Assemble(t, p, !begin, scratch) == Assemble(t, t.scan(p).pos, true, scratch + t.scan(p).payload)
  {
    var s := t.scan(p);
    assert [] + s.payload == s.payload;
    var r := Assemble(t, s.pos, true, scratch + s.payload);
    assert [] + r.drops == r.drops;
  }

  lemma {:induction false} AssemblesLast(t: Tape, p: nat, begin: bool, scratch: Bytes)
    requires Steady(t) && p <= t.size && (begin ==> scratch == [])
    requires t.scan(p).kind == KindOf(begin, true) && t.scan(p).drops == []
    ensures Assemble(t, p, !begin, scratch) == Logical(Some(scratch + t.scan(p).payload), t.scan(p).pos, [])
  {
    assert [] + t.scan(p).payload == t.scan(p).payload;
  }

  /** One record: put together whole if the file holds all of it, and otherwise not at all. */
  lemma {:induction false} AssemblesFragments(t: Tape, p: nat, xs: seq<Fragment>, begin: bool, scratch: Bytes)
    requires Steady(t) && p <= t.size && Finds(t, p, xs) && Shaped(xs, begin) && (begin ==> scratch == [])
    ensures Assemble(t, p, !begin, scratch) == Outcome(t.size, p, TotalSize(xs), scratch + Joined(xs))
    decreases |xs|
  {
    var x := xs[0];
    var rest := xs[1..];
    if p + x.Size() <= t.size {
      if |xs| == 1 {
        AssemblesLast(t, p, begin, scratch);
        assert rest == [] && TotalSize(rest) == 0;
        assert Joined(xs) == x.payload + Joined(rest) == x.payload;
      } else {
        AssemblesMore(t, p, begin, scratch);
        AssemblesFragments(t, p + x.Size(), rest, false, scratch + x.payload);
        assert (scratch + x.payload) + Joined(rest) == scratch + Joined(xs);
      }
    }
  }

  // ----- logs -----

  /** A log of records, each put down by `emit` at the length the file has by then. */
  function Log(emit: (nat, Bytes) -> Bytes, p: nat, records: seq<Bytes>): Bytes
    decreases |records|
  {
    if records == [] then
      []
    else
      var r := emit(p, records[0]);
      r + Log(emit, p + |r|, records[1..])
  }

  // ----- reading back a whole log -----

  /** `f` carries `bytes` at `p`, as far as it goes. */
  ghost predicate Carries(f: Bytes, p: nat, bytes: Bytes) {
    p <= |f| && if p + |bytes| <= |f| then f[p..p + |bytes|] == bytes else f[p..] == bytes[..|f| - p]
  }

  lemma {:induction false} CarriesParts(f: Bytes, p: nat, a: Bytes, b: Bytes)
    requires Carries(f, p, a + b)
    ensures Carries(f, p, a) && (p + |a| <= |f| ==> Carries(f, p + |a|, b))
  {
    var ab := a + b;
    if p + |ab| <= |f| {
      assert f[p..p + |a|] == ab[..|a|] && f[p + |a|..p + |ab|] == ab[|a|..];
    } else if p + |a| <= |f| {
      assert f[p..p + |a|] == ab[..|a|];
      assert f[p + |a|..] == ab[..|f| - p][|a|..] == b[..|f| - p - |a|];
    } else {
      assert ab[..|f| - p] == a[..|f| - p];
    }
  }

  /** If the file carries a record here, the tape gives that record back. */
  ghost predicate GivesAt(t: Tape, f: Bytes, emit: (nat, Bytes) -> Bytes, p: nat, data: Bytes)
    requires Steady(t) && t.size == |f|
  {
    Carries(f, p, emit(p, data)) ==>
      Assemble(t, p, false, []) == Outcome(|f|, p, |emit(p, data)|, data)
  }

  ghost predicate Gives(t: Tape, f: Bytes, emit: (nat, Bytes) -> Bytes) {
    && Steady(t) && t.size == |f|
    && (forall p, data :: GivesAt(t, f, emit, p, data))
    && t.scan(|f|) == Physical(EOF, [], |f|, [])
  }

  /** A prefix of `n` bytes holds exactly the first `k` records whole. */
  ghost predicate Whole(emit: (nat, Bytes) -> Bytes, p: nat, records: seq<Bytes>, n: nat, k: nat) {
    && k <= |records|
    && |Log(emit, p, records[..k])| <= n
    && (k < |records| ==> n < |Log(emit, p, records[..k + 1])|)
  }

  lemma {:induction false} LogFront(emit: (nat, Bytes) -> Bytes, p: nat, records: seq<Bytes>, k: nat)
    requires 0 < k <= |records|
    ensures var r := emit(p, records[0]);
            Log(emit, p, records[..k]) == r + Log(emit, p + |r|, records[1..][..k - 1])
  {
    assert records[..k][0] == records[0] && records[..k][1..] == records[1..][..k - 1];
  }

  /** Leaving out a first record that is whole. */
  lemma {:induction false} WholeRest(emit: (nat, Bytes) -> Bytes, p: nat, records: seq<Bytes>, n: nat, k: nat)
    requires records != [] && |emit(p, records[0])| <= n
    ensures var r := emit(p, records[0]);
            k > 0 ==> (Whole(emit, p, records, n, k) <==> Whole(emit, p + |r|, records[1..], n - |r|, k - 1))
    ensures Whole(emit, p, records, n, k) ==> k > 0
  {
    if 0 < k <= |records| {
      LogFront(emit, p, records, k);
      if k < |records| {
        LogFront(emit, p, records, k + 1);
      }
    } else if k == 0 {
      LogFront(emit, p, records, 1);
    }
  }

  lemma {:induction false} WholeFirst(emit: (nat, Bytes) -> Bytes, p: nat, records: seq<Bytes>, n: nat, k: nat)
    requires records != [] && Whole(emit, p, records, n, k)
    ensures var r := emit(p, records[0]);
            && Log(emit, p, records) == r + Log(emit, p + |r|, records[1..])
            && if |r| <= n then k > 0 && Whole(emit, p + |r|, records[1..], n - |r|, k - 1) else k == 0
  {
    if |emit(p, records[0])| <= n {
      WholeRest(emit, p, records, n, k);
    } else if k > 0 {
      LogFront(emit, p, records, k);
    }
  }

  lemma {:induction false} ReadsNext(t: Tape, p: nat, record: Bytes, q: nat)
    requires Steady(t) && p <= t.size && q <= t.size
    requires Assemble(t, p, false, []) == Logical(Some(record), q, [])
    ensures ReadAll(t, p) == Replay([record] + ReadAll(t, q).records, ReadAll(t, q).drops)
  {
    assert [] + ReadAll(t, q).drops == ReadAll(t, q).drops;
  }

  lemma {:induction false} ReadsNone(t: Tape, p: nat)
    requires Steady(t) && p <= t.size && Assemble(t, p, false, []) == Logical(None, t.size, [])
    ensures ReadAll(t, p) == Replay([], [])
  {}

  lemma {:induction false} ReadsEnd(t: Tape)
    requires Steady(t) && t.scan(t.size) == Physical(EOF, [], t.size, [])
    ensures ReadAll(t, t.size) == Replay([], [])
  {
    assert Assemble(t, t.size, false, []) == Logical(None, t.size, []);
  }

  lemma {:induction false} ReadsFirst(t: Tape, f: Bytes, emit: (nat, Bytes) -> Bytes, p: nat, record: Bytes,
                                      more: Bytes)
    requires Gives(t, f, emit) && Carries(f, p, emit(p, record) + more)
    ensures var q := p + |emit(p, record)|;
            if q <= |f| then
              Carries(f, q, more) && ReadAll(t, p) == Replay([record] + ReadAll(t, q).records, ReadAll(t, q).drops)
            else
              ReadAll(t, p) == Replay([], [])
  {
    var r := emit(p, record);
    CarriesParts(f, p, r, more);
    assert GivesAt(t, f, emit, p, record);
    if p + |r| <= |f| {
      ReadsNext(t, p, record, p + |r|);
    } else {
      ReadsNone(t, p);
    }
  }

  /** The records that end inside a file of `size` bytes. */
  function Surviving(emit: (nat, Bytes) -> Bytes, p: nat, records: seq<Bytes>, size: nat): seq<Bytes>
    decreases |records|
  {
    if records == [] || p + |emit(p, records[0])| > size then
      []
    else
      [records[0]] + Surviving(emit, p + |emit(p, records[0])|, records[1..], size)
  }

  lemma {:induction false} WholeSurvive(emit: (nat, Bytes) -> Bytes, p: nat, records: seq<Bytes>, size: nat, k: nat)
    requires p <= size && Whole(emit, p, records, size - p, k)
    ensures Surviving(emit, p, records, size) == records[..k]
    decreases |records|
  {
    if records != [] {
      WholeFirst(emit, p, records, size - p, k);
      var q := p + |emit(p, records[0])|;
      if q <= size {
        WholeSurvive(emit, q, records[1..], size, k - 1);
        assert [records[0]] + records[1..][..k - 1] == records[..k];
      }
    }
  }

  lemma {:induction false} ReadsBack(t: Tape, f: Bytes, emit: (nat, Bytes) -> Bytes, p: nat, records: seq<Bytes>)
    requires Gives(t, f, emit) && Carries(f, p, Log(emit, p, records)) && |f| <= p + |Log(emit, p, records)|
    ensures ReadAll(t, p) == Replay(Surviving(emit, p, records, |f|), [])
    decreases |records|
  {
    if records == [] {
      ReadsEnd(t);
    } else {
      var q := p + |emit(p, records[0])|;
      ReadsFirst(t, f, emit, p, records[0], Log(emit, q, records[1..]));
      if q <= |f| {
        ReadsBack(t, f, emit, q, records[1..]);
      }
    }
  }

  lemma {:induction false} SomePrefixIsWhole(emit: (nat, Bytes) -> Bytes, p: nat, records: seq<Bytes>, n: nat)
      returns (k: nat)
    requires n <= |Log(emit, p, records)|
    ensures Whole(emit, p, records, n, k)
    decreases |records|
  {
    k := 0;
    if records != [] {
      var r := emit(p, records[0]);
      LogFront(emit, p, records, 1);
      if |r| <= n {
        var j := SomePrefixIsWhole(emit, p + |r|, records[1..], n - |r|);
        k := j + 1;
        WholeRest(emit, p, records, n, k);
      }
    }
  }
}
