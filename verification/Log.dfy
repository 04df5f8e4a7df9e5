/**
  The log writer and reader as they run: the writer cuts records at block ends as it goes, the reader
  refills a block buffer and puts records together (db/log_writer.cc, db/log_reader.cc).
 */
module Log {
  import opened Wrappers
  import opened Coding
  import opened LogRecords
  import opened LogFormat
  import opened Schemes

  // ----- appending -----

  /** `xs` is how the rest of a record is going to be cut; nothing is left once all of it is out. */
  ghost predicate Remaining(xs: seq<Fragment>, p: nat, data: Bytes, begin: bool) {
    if begin || data != [] then xs == Fragments(p, data, begin) else xs == []
  }

  lemma {:induction false} RemainingStep(xs: seq<Fragment>, p: nat, data: Bytes, begin: bool)
    requires Remaining(xs, p, data, begin) && (begin || data != [])
    ensures var x := FirstFragment(p, data, begin);
            xs != [] && xs[0] == x && Remaining(xs[1..], p + x.Size(), data[|x.payload|..], false)
  {
    var x := FirstFragment(p, data, begin);
    FragmentsAre(p, data, begin);
    assert x.payload == data <==> data[|x.payload|..] == [];
  }

  /** The file will read `goal` once the fragments `xs` of what is left of a record are out. */
  ghost predicate Toward(scheme: Scheme, dest: Bytes, xs: seq<Fragment>, data: Bytes, begin: bool, goal: Bytes) {
    Remaining(xs, |dest|, data, begin) && dest + Encoded(scheme, xs) == goal
  }

  lemma {:induction false} TowardStep(scheme: Scheme, dest: Bytes, xs: seq<Fragment>, data: Bytes, begin: bool,
                                      goal: Bytes)
    requires Toward(scheme, dest, xs, data, begin, goal) && (begin || data != [])
    ensures var x := FirstFragment(|dest|, data, begin);
            xs != [] && Toward(scheme, dest + EncodedFragment(scheme, x), xs[1..], data[|x.payload|..], false, goal)
  {
    RemainingStep(xs, |dest|, data, begin);
    EncodedStep(scheme, dest, xs);
  }

  lemma {:induction false} EncodedStep(scheme: Scheme, dest: Bytes, xs: seq<Fragment>)
    requires xs != []
    ensures dest + Encoded(scheme, xs) == (dest + EncodedFragment(scheme, xs[0])) + Encoded(scheme, xs[1..])
  {}

  /** A log with one more record. */
  lemma {:induction false} LogAppend(emit: (nat, Bytes) -> Bytes, p: nat, records: seq<Bytes>, record: Bytes)
    ensures LogRecords.Log(emit, p, records + [record])
            == LogRecords.Log(emit, p, records) + emit(p + |LogRecords.Log(emit, p, records)|, record)
    decreases |records|
  {
    if records == [] {
      assert ([] + [record])[1..] == [];
      assert LogRecords.Log(emit, p, [record]) == emit(p, record) + [];
    } else {
      assert (records + [record])[1..] == records[1..] + [record];
      LogAppend(emit, p + |emit(p, records[0])|, records[1..], record);
    }
  }

  lemma {:induction false} OffsetIsPosition(blockOffset: nat, p: nat)
    requires blockOffset <= 32768 && blockOffset % 32768 == p % 32768
    ensures blockOffset < 32768 ==> BlockEnd(p) - p == 32768 - blockOffset
    ensures blockOffset == 32768 ==> BlockEnd(p) - p == 32768
  {}

  lemma {:induction false} OffsetMoves(blockOffset: nat, p: nat, n: nat)
    requires blockOffset % 32768 == p % 32768
    ensures (blockOffset + n) % 32768 == (p + n) % 32768
  {}

  class LogWriter {
    const scheme: Scheme
    var dest: Bytes
    var blockOffset: nat

    ghost predicate Valid()
      reads this
    {
      blockOffset <= 32768 && blockOffset % 32768 == |dest| % 32768
    }

    /** Starts at the end of what the file already holds. */
    constructor (scheme: Scheme, dest: Bytes)
      ensures Valid() && this.dest == dest && this.scheme == scheme
    {
      this.scheme, this.dest := scheme, dest;
      blockOffset := |dest| % 32768;
    }

    method EmitPhysicalRecord(kind: byte, payload: Bytes)
      requires Valid() && blockOffset + HEADER + |payload| <= 32768
      modifies this
      ensures Valid() && dest == old(dest) + Encode(scheme, kind, payload)
    {
      OffsetMoves(blockOffset, |dest|, HEADER + |payload|);
      var header := scheme.sum(kind, payload) + Fixed(2, |payload|) + [kind];
      dest := dest + header;
      dest := dest + payload;
      blockOffset := blockOffset + HEADER + |payload|;
      assert dest == old(dest) + Encode(scheme, kind, payload);
    }

    /** Fills up a block that has no room for a header. */
    method SwitchBlock()
      requires Valid()
      modifies this
      ensures Valid() && dest == old(dest) + Zeros(Pad(|old(dest)|))
      ensures blockOffset + HEADER <= 32768 && BlockEnd(|dest|) - |dest| == 32768 - blockOffset
    {
      OffsetIsPosition(blockOffset, |dest|);
      var leftover := 32768 - blockOffset;
      if leftover < HEADER {
        if leftover > 0 {
          OffsetMoves(blockOffset, |dest|, leftover);
          dest := dest + Zeros(leftover);
        }
        blockOffset := 0;
      }
      assert dest == old(dest) + Zeros(Pad(|old(dest)|));
    }

    /** One fragment, and how many bytes of the record went into it. */
    method EmitFragment(data: Bytes, begin: bool) returns (length: nat)
      requires Valid()
      modifies this
      ensures Valid() && length == |FirstFragment(|old(dest)|, data, begin).payload|
      ensures dest == old(dest) + EncodedFragment(scheme, FirstFragment(|old(dest)|, data, begin))
    {
      ghost var p := |dest|;
      SwitchBlock();
      var left := |data|;
      var avail := 32768 - blockOffset - HEADER;
      length := if left < avail then left else avail;
      assert length == Room(p, left);
      var end := left == length;
      var kind;
      if begin && end {
        kind := FULL;
      } else if begin {
        kind := FIRST;
      } else if end {
        kind := LAST;
      } else {
        kind := MIDDLE;
      }
      EmitPhysicalRecord(kind, data[..length]);
      assert dest == old(dest) + (Zeros(Pad(p)) + Encode(scheme, kind, data[..length]));
    }

    method AddRecord(slice: Bytes)
      requires Valid()
      modifies this
      ensures Valid() && dest == old(dest) + Emitted(scheme, |old(dest)|, slice)
    {
      ghost var xs, goal := Fragments(|dest|, slice, true), dest + Emitted(scheme, |dest|, slice);
      var left := slice;
      var begin := true;
      while begin || left != []
        invariant Valid() && Toward(scheme, dest, xs, left, begin, goal)
        decreases |xs|
      {
        var length := TakeFragment(left, begin, xs, goal);
        left, xs := left[length..], xs[1..];
        begin := false;
      }
    }

    /** One fragment of what is left, on the way to `goal`. */
    method TakeFragment(left: Bytes, begin: bool, ghost xs: seq<Fragment>, ghost goal: Bytes) returns (length: nat)
      requires Valid() && (begin || left != []) && Toward(scheme, dest, xs, left, begin, goal)
      modifies this
      ensures Valid() && xs != [] && length <= |left|
      ensures Toward(scheme, dest, xs[1..], left[length..], false, goal)
    {
      TowardStep(scheme, dest, xs, left, begin, goal);
      length := EmitFragment(left, begin);
    }
  }

  // ----- reading -----

  /** The tape reads the file at position `p`; stated apart so that it can be carried without being used. */
  ghost predicate ScansAs(t: Tape, f: Bytes, scheme: Scheme, p: nat) {
    p <= |f| ==> t.scan(p) == Scan(f, scheme, p)
  }

  ghost predicate IsTape(t: Tape, f: Bytes, scheme: Scheme) {
    Steady(t) && t.size == |f| && forall p :: ScansAs(t, f, scheme, p)
  }

  lemma {:induction false} TapeOfIsTape(f: Bytes, scheme: Scheme)
    ensures IsTape(TapeOf(f, scheme), f, scheme)
  {}

  /** A refill after a trailer goes on at the same header. */
  lemma {:induction false} RefillStarts(f: Bytes, end: nat, n: nat)
    requires n < HEADER && n <= end <= |f| && end % 32768 == 0
    ensures Start(f, end - n) == Start(f, end) == end
  {}

  lemma {:induction false} RefillEnds(start: nat)
    requires start % 32768 == 0
    ensures BlockEnd(start) == start + 32768
  {}

  lemma {:induction false} BlockMore(start: nat, n: nat)
    requires start % 32768 == 0
    ensures (start + n) % 32768 == n % 32768
  {}

  /** Too few bytes at the end of the file for a header. */
  lemma {:induction false} ScanEnds(f: Bytes, scheme: Scheme, p: nat, q: nat)
    requires p <= |f| && q <= |f| < q + HEADER && (q == |f| || BlockEnd(q) > |f|) && Start(f, q) == Start(f, p)
    ensures Scan(f, scheme, p) == Physical(EOF, [], |f|, [])
  {}

  /** A header in the buffer is where the scan looks for it. */
  lemma {:induction false} BufferAtStart(f: Bytes, scheme: Scheme, p: nat, q: nat, end: nat, eof: bool)
    requires p <= |f| && q + HEADER <= end <= |f| && Start(f, q) == Start(f, p)
    requires !eof ==> end % 32768 == 0 && end - q <= 32768
    requires eof ==> end == |f| && BlockEnd(q) > |f|
    ensures Scan(f, scheme, p) == Parse(f[q..end], scheme, q, |f|, eof)
  {
    if !eof {
      BlockEndIs(q, end);
    }
    StartHere(f, q);
  }

  lemma {:induction false} BlockEndIs(q: nat, end: nat)
    requires q < end <= q + 32768 && end % 32768 == 0
    ensures BlockEnd(q) == end
  {}

  /** With room for a header in its block, a position is where the next one is. */
  lemma {:induction false} StartHere(f: Bytes, q: nat)
    requires q + HEADER <= |f| && BlockEnd(q) - q >= HEADER
    ensures Start(f, q) == q
  {}

  lemma {:induction false} BlockEndMonotone(p: nat, q: nat)
    requires p <= q
    ensures BlockEnd(p) <= BlockEnd(q)
  {}

  /** One step of putting a record together, after `lost` was reported. */
  lemma {:induction false} AssembleIs(t: Tape, p: nat, fragmented: bool, scratch: Bytes, lost: seq<nat>)
    requires Steady(t) && p <= t.size
    ensures var r := Assemble(t, p, fragmented, scratch);
            match Absorb(t.scan(p), fragmented, scratch)
            case Done(record, drops) => r == Logical(record, t.scan(p).pos, drops)
            case More(going, sofar, drops) =>
              After(lost, r) == After(lost + drops, Assemble(t, t.scan(p).pos, going, sofar))
  {
    match Absorb(t.scan(p), fragmented, scratch)
    case Done(_, _) =>
    case More(going, sofar, drops) =>
      var s := Assemble(t, t.scan(p).pos, going, sofar);
      assert lost + (drops + s.drops) == (lost + drops) + s.drops;
  }

  class LogReader {
    const file: Bytes
    const scheme: Scheme
    ghost const tape: Tape
    var buffer: Bytes
    var eof: bool
    var endOfBufferOffset: nat
    /** The byte counts reported as lost so far. */
    var dropped: seq<nat>

    ghost predicate Valid()
      reads this
    {
      && IsTape(tape, file, scheme)
      && |buffer| <= endOfBufferOffset <= |file|
      && buffer == file[endOfBufferOffset - |buffer|..endOfBufferOffset]
      && (!eof ==> endOfBufferOffset % 32768 == 0 && |buffer| <= 32768)
      && (eof ==> endOfBufferOffset == |file| && (buffer == [] || BlockEnd(Position()) > |file|))
    }

    /** How far reading has come. */
    ghost function Position(): nat
      reads this
      requires |buffer| <= endOfBufferOffset
    {
      endOfBufferOffset - |buffer|
    }

    constructor (file: Bytes, scheme: Scheme)
      ensures Valid() && Position() == 0 && dropped == []
      ensures this.file == file && this.scheme == scheme && tape == TapeOf(file, scheme)
    {
      this.file, this.scheme, tape := file, scheme, TapeOf(file, scheme);
      buffer, eof, endOfBufferOffset, dropped := [], false, 0, [];
      TapeOfIsTape(file, scheme);
    }

    /** Reads the next block into the buffer. */
    method Refill()
      requires Valid() && !eof && |buffer| < HEADER
      modifies this`buffer, this`eof, this`endOfBufferOffset
      ensures Valid() && (eof || |buffer| == 32768)
      ensures Start(file, Position()) == Start(file, old(Position()))
    {
      RefillStarts(file, endOfBufferOffset, |buffer|);
      RefillEnds(endOfBufferOffset);
      buffer := [];
      var start := endOfBufferOffset;
      var n := if |file| - start < 32768 then |file| - start else 32768;
      BlockMore(start, n);
      buffer := file[start..start + n];
      endOfBufferOffset := start + n;
      if |buffer| < 32768 {
        eof := true;
      }
    }

    /** Refills the buffer until it can hold a header; `ended` if the file has none left. */
    method FillHeader() returns (ended: bool)
      requires Valid()
      modifies this`buffer, this`eof, this`endOfBufferOffset
      ensures Valid() && Start(file, Position()) == Start(file, old(Position()))
      ensures if ended then eof && |buffer| < HEADER else |buffer| >= HEADER
    {
      while |buffer| < HEADER && !eof
        invariant Valid() && Start(file, Position()) == Start(file, old(Position()))
        decreases !eof, |buffer| < HEADER
      {
        Refill();
      }
      ended := |buffer| < HEADER;
    }

    method ReadPhysicalRecord() returns (kind: byte, payload: Bytes)
      requires Valid()
      modifies this
      ensures Valid()
      ensures var s := tape.scan(old(Position()));
              kind == s.kind && payload == s.payload && Position() == s.pos && dropped == old(dropped) + s.drops
    {
      ghost var p := Position();
      assert ScansAs(tape, file, scheme, p);
      var ended := FillHeader();
      if ended {
        AtEnd(p);
        Clear();
        return EOF, [];
      }
      AtHeader(p);
      kind, payload := ParseHeader();
    }

    lemma {:induction false} AtEnd(p: nat)
      requires Valid() && p <= |file| && eof && |buffer| < HEADER && Start(file, Position()) == Start(file, p)
      ensures Scan(file, scheme, p) == Physical(EOF, [], |file|, [])
    {
      ScanEnds(file, scheme, p, Position());
    }

    lemma {:induction false} AtHeader(p: nat)
      requires Valid() && p <= |file| && |buffer| >= HEADER && Start(file, Position()) == Start(file, p)
      ensures Scan(file, scheme, p) == Parse(buffer, scheme, Position(), |file|, eof)
    {
      BufferAtStart(file, scheme, p, Position(), endOfBufferOffset, eof);
    }

    /** Gives up the rest of the buffer. */
    method Clear()
      requires Valid()
      modifies this`buffer
      ensures Valid() && Position() == endOfBufferOffset
    {
      buffer := [];
    }

    method RemovePrefix(n: nat)
      requires Valid() && n <= |buffer|
      modifies this`buffer
      ensures Valid() && Position() == old(Position()) + n
    {
      BlockEndMonotone(Position(), Position() + n);
      buffer := buffer[n..];
    }

    /** The header at the front of the buffer. */
    method ParseHeader() returns (kind: byte, payload: Bytes)
      requires Valid() && |buffer| >= HEADER
      modifies this`buffer, this`dropped
      ensures Valid()
      ensures var s := Parse(old(buffer), scheme, old(Position()), |file|, eof);
              kind == s.kind && payload == s.payload && Position() == s.pos && dropped == old(dropped) + s.drops
    {
      var length := buffer[4] as nat + 256 * buffer[5] as nat;
      kind, payload := buffer[6], [];
      var dropSize := |buffer|;
      if HEADER + length > |buffer| {
        Clear();
        if !eof {
          dropped := dropped + [dropSize];
          kind := BAD;
        } else {
          kind := EOF;
        }
      } else {
        kind, payload := ParsePayload(kind, length);
      }
    }

    method ParsePayload(stored: byte, length: nat) returns (kind: byte, payload: Bytes)
      requires Valid() && HEADER + length <= |buffer| && stored == buffer[6]
      requires length == buffer[4] as nat + 256 * buffer[5] as nat
      modifies this`buffer, this`dropped
      ensures Valid()
      ensures var s := Parse(old(buffer), scheme, old(Position()), |file|, eof);
              kind == s.kind && payload == s.payload && Position() == s.pos && dropped == old(dropped) + s.drops
    {
      kind, payload := stored, [];
      var dropSize := |buffer|;
      if kind == ZERO && length == 0 {
        Clear();
        kind := BAD;
      } else if !scheme.check(buffer[..4], kind, buffer[HEADER..HEADER + length]) {
        Clear();
        dropped := dropped + [dropSize];
        kind := BAD;
      } else {
        payload := buffer[HEADER..HEADER + length];
        RemovePrefix(HEADER + length);
      }
    }

    /** Takes one physical record; `done` when a record, or the end, is reached. */
    method Take(kind: byte, fragment: Bytes, wasFragmented: bool, before: Bytes, ghost s: Physical)
      returns (done: bool, record: Option<Bytes>, fragmented: bool, scratch: Bytes)
      requires kind == s.kind && fragment == s.payload && (!wasFragmented ==> before == [])
      modifies this`dropped
      ensures !done && !fragmented ==> scratch == []
      ensures match Absorb(s.(drops := []), wasFragmented, before)
              case Done(r, drops) => done && record == r && dropped == old(dropped) + drops
              case More(going, sofar, drops) =>
                !done && fragmented == going && scratch == sofar && dropped == old(dropped) + drops
    {
      done, record, fragmented, scratch := false, None, wasFragmented, before;
      if kind == FULL {
        if fragmented && scratch != [] {
          dropped := dropped + [|scratch|];
        }
        done, record := true, Some(fragment);
      } else if kind == FIRST {
        if fragmented && scratch != [] {
          dropped := dropped + [|scratch|];
        }
        scratch, fragmented := fragment, true;
      } else if kind == MIDDLE {
        if !fragmented {
          dropped := dropped + [|fragment|];
        } else {
          scratch := scratch + fragment;
        }
      } else if kind == LAST {
        if !fragmented {
          dropped := dropped + [|fragment|];
        } else {
          done, record := true, Some(scratch + fragment);
        }
      } else if kind == EOF {
        done := true;
      } else if kind == BAD {
        if fragmented {
          dropped := dropped + [|scratch|];
          fragmented, scratch := false, [];
        }
      } else {
        dropped := dropped + [|fragment| + (if fragmented then |scratch| else 0)];
        fragmented, scratch := false, [];
      }
    }

    /** The next record, or none at the end of the file. */
    method ReadRecord() returns (record: Option<Bytes>)
      requires Valid()
      modifies this
      ensures Valid()
      ensures Logical(record, Position(), dropped) == After(old(dropped), Assemble(tape, old(Position()), false, []))
    {
      var scratch: Bytes, fragmented, done := [], false, false;
      record := None;
      ghost var goal := After(dropped, Assemble(tape, Position(), false, []));
      while !done
        invariant Valid() && (!done && !fragmented ==> scratch == [])
        invariant Nearing(tape, goal, Position(), fragmented, scratch, dropped, done, record)
        decreases !done, |file| - Position()
      {
        done, record, fragmented, scratch := Advance(fragmented, scratch, goal);
      }
    }

    /** One more physical record towards the `goal`. */
    method Advance(wasFragmented: bool, before: Bytes, ghost goal: Logical)
      returns (done: bool, record: Option<Bytes>, fragmented: bool, scratch: Bytes)
      requires Valid() && (!wasFragmented ==> before == [])
      requires Nearing(tape, goal, Position(), wasFragmented, before, dropped, false, None)
      modifies this
      ensures Valid() && (!done && !fragmented ==> scratch == []) && (!done ==> Position() > old(Position()))
      ensures Nearing(tape, goal, Position(), fragmented, scratch, dropped, done, record)
    {
      ghost var s := tape.scan(Position());
      NearingStep(tape, goal, Position(), wasFragmented, before, dropped);
      var kind, fragment := ReadPhysicalRecord();
      done, record, fragmented, scratch := Take(kind, fragment, wasFragmented, before, s);
    }
  }

  /** What has been reported in all, once `r` is reported after `lost`. */
  function After(lost: seq<nat>, r: Logical): Logical {
    r.(drops := lost + r.drops)
  }

  /** What is left to do before `goal`, after `lost` was reported; nothing once `done`. */
  ghost predicate Nearing(
      t: Tape, goal: Logical, p: nat, fragmented: bool, scratch: Bytes, lost: seq<nat>, done: bool,
        record: Option<Bytes>)
    requires Steady(t)
  {
    && p <= t.size
    && goal == if done then Logical(record, p, lost) else After(lost, Assemble(t, p, fragmented, scratch))
  }

  lemma {:induction false} NearingStep(t: Tape, goal: Logical, p: nat, fragmented: bool, scratch: Bytes, lost: seq<nat>)
    requires Steady(t) && Nearing(t, goal, p, fragmented, scratch, lost, false, None)
    ensures var s := t.scan(p);
            match Absorb(s.(drops := []), fragmented, scratch)
            case Done(record, drops) =>
              forall going, sofar :: Nearing(t, goal, s.pos, going, sofar, (lost + s.drops) + drops, true, record)
            case More(going, sofar, drops) =>
              && s.pos > p
              && forall record :: Nearing(t, goal, s.pos, going, sofar, (lost + s.drops) + drops, false, record)
  {
    var s := t.scan(p);
    AssembleIs(t, p, fragmented, scratch, lost);
    AbsorbDrops(s, fragmented, scratch);
    match Absorb(s.(drops := []), fragmented, scratch)
    case Done(_, drops) =>
      assert lost + (s.drops + drops) == (lost + s.drops) + drops;
    case More(_, _, drops) =>
      assert lost + (s.drops + drops) == (lost + s.drops) + drops;
  }

  /** What the physical read reported comes before what taking its record reports. */
  lemma {:induction false} AbsorbDrops(s: Physical, fragmented: bool, scratch: Bytes)
    ensures var a := Absorb(s, fragmented, scratch);
            var b := Absorb(s.(drops := []), fragmented, scratch);
            match a
            case Done(record, drops) => b.Done? && b.record == record && drops == s.drops + b.drops
            case More(going, sofar, drops) =>
              b.More? && b.fragmented == going && b.scratch == sofar && drops == s.drops + b.drops
  {}

  // ----- a log written and read back -----

  /** Writes records one after the other to an empty file. */
  method WriteAll(records: seq<Bytes>, scheme: Scheme) returns (file: Bytes)
    ensures file == LogOf(scheme, records)
  {
    var w := new LogWriter(scheme, []);
    for i := 0 to |records|
      invariant w.Valid() && w.scheme == scheme && w.dest == LogOf(scheme, records[..i]) && fresh(w)
    {
      assert records[..i + 1] == records[..i] + [records[i]];
      WriteOne(w, records[i], records[..i]);
    }
    assert records[..|records|] == records;
    file := w.dest;
  }

  method WriteOne(w: LogWriter, record: Bytes, ghost done: seq<Bytes>)
    requires w.Valid() && w.dest == LogOf(w.scheme, done)
    modifies w
    ensures w.Valid() && w.dest == LogOf(w.scheme, done + [record])
  {
    LogAppend(Emitter(w.scheme), 0, done, record);
    w.AddRecord(record);
  }

  /** Reads records until there is none, as recovery does. */
  method RecoverAll(file: Bytes, scheme: Scheme) returns (records: seq<Bytes>, lost: seq<nat>)
    ensures Replay(records, lost) == ReadLog(file, scheme)
  {
    var r := new LogReader(file, scheme);
    records := [];
    var done := false;
    ghost var t := r.tape;
    while !done
      invariant r.Valid() && fresh(r) && r.file == file && r.tape == t == TapeOf(file, scheme)
      invariant if done then ReadLog(file, scheme) == Replay(records, r.dropped)
                else var rest := ReadAll(t, r.Position());
                     ReadLog(file, scheme) == Replay(records + rest.records, r.dropped + rest.drops)
      decreases !done, |file| - r.Position()
    {
      ghost var p := r.Position();
      ReadAllIs(t, p, records, r.dropped);
      var record := r.ReadRecord();
      if record.Some? {
        records := records + [record.value];
      } else {
        done := true;
      }
    }
    lost := r.dropped;
  }

  lemma {:induction false} ReadAllIs(t: Tape, p: nat, before: seq<Bytes>, lost: seq<nat>)
    requires Steady(t) && p <= t.size
    ensures var r := Assemble(t, p, false, []);
            var all := ReadAll(t, p);
            match r.record
            case None => before + all.records == before && lost + all.drops == lost + r.drops
            case Some(record) =>
              && r.pos > p
              && before + all.records == (before + [record]) + ReadAll(t, r.pos).records
              && lost + all.drops == (lost + r.drops) + ReadAll(t, r.pos).drops
  {
    var r := Assemble(t, p, false, []);
    if r.record.Some? {
      AssembleAdvances(t, p, false, []);
    }
  }

  /** Every record list survives being written and recovered, and every cut keeps its whole records. */
  method CrashAndRecover(records: seq<Bytes>, n: nat) returns (kept: seq<Bytes>, lost: seq<nat>)
    ensures n <= |LogOf(LOG, records)| ==>
              lost == [] && exists k: nat :: Whole(Emitter(LOG), 0, records, n, k) && kept == records[..k]
  {
    var file := WriteAll(records, LOG);
    kept, lost := RecoverAll(if n <= |file| then file[..n] else file, LOG);
    if n <= |file| {
      ghost var k := SomePrefixIsWhole(Emitter(LOG), 0, records, n);
      LogSchemesAreSound();
      EveryPrefixReadsBack(LOG, records, n, k);
    }
  }
}
