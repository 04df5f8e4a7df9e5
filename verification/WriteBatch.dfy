/**
  Write batches as byte strings (db/write_batch.cc): a sequence number, a count and the records, and the
  entries that inserting a batch adds.
 */
module WriteBatch {
  import opened Wrappers
  import opened Coding

  const HEADER: nat := 12
  const TYPE_DELETION: byte := 0
  const TYPE_VALUE: byte := 1

  datatype Record = Put(key: Bytes, value: Bytes) | Delete(key: Bytes)

  /** What a handler is given, one call for each record. */
  datatype Iterated = Iterated(records: seq<Record>, ok: bool)

  /** One entry of a memtable. */
  datatype Entry = Entry(sequence: nat, record: Record)

  // ----- the format -----

  function Encode(r: Record): Bytes {
    match r
    case Put(key, value) => [TYPE_VALUE] + (LengthPrefixed(key) + LengthPrefixed(value))
    case Delete(key) => [TYPE_DELETION] + LengthPrefixed(key)
  }

  function EncodeWith(encode: Record -> Bytes, rs: seq<Record>): Bytes {
    if rs == [] then [] else encode(rs[0]) + EncodeWith(encode, rs[1..])
  }

  function EncodeAll(rs: seq<Record>): Bytes {
    EncodeWith(Encode, rs)
  }

  function Decode(s: Bytes): Parsed<Record>
    requires s != []
  {
    if s[0] == TYPE_VALUE then
      match GetLengthPrefixed(s[1..])
      case Bad => Bad
      case Parsed(key, s1) =>
        match GetLengthPrefixed(s1)
        case Bad => Bad
        case Parsed(value, rest) => Parsed(Put(key, value), rest)
    else if s[0] == TYPE_DELETION then
      match GetLengthPrefixed(s[1..])
      case Bad => Bad
      case Parsed(key, rest) => Parsed(Delete(key), rest)
    else
      Bad
  }

  lemma {:induction false} DecodeConsumes(s: Bytes)
    requires s != []
    ensures Decode(s).Parsed? ==> |Decode(s).rest| < |s|
  {
    PrefixedConsumes(s[1..]);
    if GetLengthPrefixed(s[1..]).Parsed? {
      PrefixedConsumes(GetLengthPrefixed(s[1..]).rest);
    }
  }

  /** The records up to the end of the input, or up to one that is cut off or unknown. */
  function DecodeAll(s: Bytes): Iterated
    decreases |s|
  {
    if s == [] then
      Iterated([], true)
    else
      match Decode(s)
      case Bad => Iterated([], false)
      case Parsed(r, rest) =>
        DecodeConsumes(s);
        var more := DecodeAll(rest);
        Iterated([r] + more.records, more.ok)
  }

  /** Lengths fit their 32-bit fields. */
  predicate Fits(r: Record) {
    |r.key| < TWO32 && (r.Put? ==> |r.value| < TWO32)
  }

  lemma {:induction false} DecodesRecord(r: Record, rest: Bytes)
    requires Fits(r)
    ensures Decode(Encode(r) + rest) == Parsed(r, rest)
  {
    match r
    case Put(key, value) =>
      var s := [TYPE_VALUE] + (LengthPrefixed(key) + LengthPrefixed(value)) + rest;
      assert s[1..] == LengthPrefixed(key) + (LengthPrefixed(value) + rest);
      LengthPrefixedRoundTrip(key, LengthPrefixed(value) + rest);
      LengthPrefixedRoundTrip(value, rest);
    case Delete(key) =>
      var s := [TYPE_DELETION] + LengthPrefixed(key) + rest;
      assert s[1..] == LengthPrefixed(key) + rest;
      LengthPrefixedRoundTrip(key, rest);
  }

  lemma {:induction false} DecodeStep(r: Record, rest: Bytes)
    requires Fits(r)
    ensures DecodeAll(Encode(r) + rest) == Iterated([r] + DecodeAll(rest).records, DecodeAll(rest).ok)
  {
    DecodesRecord(r, rest);
  }

  /** Records are read back as they were put in. */
  lemma {:induction false} DecodesAll(rs: seq<Record>)
    requires forall i :: 0 <= i < |rs| ==> Fits(rs[i])
    ensures DecodeAll(EncodeAll(rs)) == Iterated(rs, true)
  {
    if rs != [] {
      DecodeStep(rs[0], EncodeAll(rs[1..]));
      DecodesAll(rs[1..]);
      assert rs == [rs[0]] + rs[1..];
    }
  }

  lemma {:induction false} EncodeConcat(encode: Record -> Bytes, a: seq<Record>, b: seq<Record>)
    ensures EncodeWith(encode, a + b) == EncodeWith(encode, a) + EncodeWith(encode, b)
  {
    if a == [] {
      assert a + b == b;
    } else {
      assert (a + b)[1..] == a[1..] + b;
      EncodeConcat(encode, a[1..], b);
    }
  }

  lemma {:induction false} Regroup(a: Bytes, b: Bytes, c: Bytes)
    ensures (a + b) + c == a + (b + c)
  {}

  lemma {:induction false} EncodeOne(r: Record)
    ensures EncodeAll([r]) == Encode(r)
  {
    assert [r][1..] == [] && EncodeWith(Encode, []) == [] && Encode(r) + [] == Encode(r);
    assert EncodeWith(Encode, [r]) == Encode([r][0]) + EncodeWith(Encode, [r][1..]);
  }

  /** The entries of a batch, with consecutive sequence numbers. */
  function Numbered(sequence: nat, rs: seq<Record>): seq<Entry> {
    seq(|rs|, i requires 0 <= i < |rs| => Entry(sequence + i, rs[i]))
  }

  class WriteBatch {
    var rep: Bytes
    /** The records put in so far. */
    ghost var records: seq<Record>

    ghost predicate Valid()
      reads this
    {
      |rep| >= HEADER && rep[8..HEADER] == Fixed(4, |records| % TWO32) && rep[HEADER..] == EncodeAll(records)
    }

    ghost predicate AllFit()
      reads this
    {
      |records| < TWO32 && forall i :: 0 <= i < |records| ==> Fits(records[i])
    }

    constructor ()
      ensures Valid() && records == [] && rep[..8] == Fixed(8, 0)
    {
      rep := seq(HEADER, _ => 0);
      records := [];
      new;
      ZeroFixed();
      assert rep[8..HEADER] == Fixed(4, 0) && rep[..8] == Fixed(8, 0);
    }

    function Count(): nat
      requires |rep| >= HEADER
      reads this
    {
      Unfixed(rep[8..HEADER])
    }

    function Sequence(): nat
      requires |rep| >= HEADER
      reads this
    {
      Unfixed(rep[..8])
    }

    lemma {:induction false} CountIs()
      requires Valid()
      ensures Count() == |records| % TWO32
    {
      Fixed32RoundTrip(|records| % TWO32);
    }

    lemma {:induction false} NextCount()
      requires Valid()
      ensures (Count() + 1) % TWO32 == (|records| + 1) % TWO32
    {
      CountIs();
      ModNext(|records|);
    }

    lemma {:induction false} SumOfCounts(source: WriteBatch)
      requires Valid() && source.Valid()
      ensures (Count() + source.Count()) % TWO32 == (|records| + |source.records|) % TWO32
    {
      CountIs();
      source.CountIs();
      ModSumOf(|records|, |source.records|);
    }

    lemma {:induction false} IterationIs()
      requires Valid() && AllFit()
      ensures DecodeAll(rep[HEADER..]) == Iterated(records, true) && Count() == |records|
    {
      DecodesAll(records);
      CountIs();
      Small(|records|, TWO32);
    }

    /** Patches the count in place; it wraps around at 32 bits. */
    method SetCount(n: nat)
      requires |rep| >= HEADER
      modifies this`rep
      ensures |rep| == |old(rep)| && rep[8..HEADER] == Fixed(4, n % TWO32)
      ensures rep[..8] == old(rep[..8]) && rep[HEADER..] == old(rep[HEADER..])
    {
      rep := rep[..8] + Fixed(4, n % TWO32) + rep[HEADER..];
    }

    method SetSequence(sequence: nat)
      requires Valid() && sequence < TWO64
      modifies this`rep
      ensures Valid() && Sequence() == sequence
    {
      rep := Fixed(8, sequence) + rep[8..];
      assert rep[..8] == Fixed(8, sequence) && rep[8..HEADER] == old(rep[8..HEADER])
             && rep[HEADER..] == old(rep[HEADER..]);
      Fixed64RoundTrip(sequence);
    }

    /** Takes over a stored batch; `rs` are the records it is made of, if it is whole. */
    method SetContents(contents: Bytes, ghost rs: seq<Record>)
      requires |contents| >= HEADER
      modifies this
      ensures rep == contents && records == rs
      ensures contents[8..HEADER] == Fixed(4, |rs| % TWO32) && contents[HEADER..] == EncodeAll(rs) ==> Valid()
    {
      rep := contents;
      records := rs;
    }

    /** Counts one record more. */
    method CountOneMore()
      requires Valid()
      modifies this`rep
      ensures |rep| >= HEADER && rep[8..HEADER] == Fixed(4, (|records| + 1) % TWO32)
      ensures rep[..8] == old(rep[..8]) && rep[HEADER..] == EncodeAll(records)
    {
      NextCount();
      SetCount(Count() + 1);
    }

    method Put(key: Bytes, value: Bytes)
      requires Valid()
      modifies this
      ensures Valid() && records == old(records) + [Record.Put(key, value)] && rep[..8] == old(rep[..8])
    {
      CountOneMore();
      ghost var before := rep;
      rep := rep + [TYPE_VALUE];
      rep := rep + LengthPrefixed(key);
      rep := rep + LengthPrefixed(value);
      PutRegroup(before, LengthPrefixed(key), LengthPrefixed(value));
      Appended(before, records, Record.Put(key, value), rep);
      records := records + [Record.Put(key, value)];
    }

    method Delete(key: Bytes)
      requires Valid()
      modifies this
      ensures Valid() && records == old(records) + [Record.Delete(key)] && rep[..8] == old(rep[..8])
    {
      CountOneMore();
      ghost var before := rep;
      rep := rep + [TYPE_DELETION];
      rep := rep + LengthPrefixed(key);
      Regroup(before, [TYPE_DELETION], LengthPrefixed(key));
      Appended(before, records, Record.Delete(key), rep);
      records := records + [Record.Delete(key)];
    }

    /** The records of another batch, behind this one's. */
    method Append(source: WriteBatch)
      requires Valid() && source.Valid() && source != this
      modifies this
      ensures Valid() && records == old(records) + source.records && rep[..8] == old(rep[..8])
    {
      SumOfCounts(source);
      SetCount(Count() + source.Count());
      ghost var before := rep;
      var more := source.rep[HEADER..];
      rep := rep + more;
      Grown(before, more);
      EncodeConcat(Encode, records, source.records);
      records := records + source.records;
    }

    /** Goes through the records; fails on a bad one and on a wrong count. */
    method Iterate() returns (r: Iterated)
      ensures |rep| < HEADER ==> r == Iterated([], false)
      ensures |rep| >= HEADER ==>
                var all := DecodeAll(rep[HEADER..]); r == Iterated(all.records, all.ok && |all.records| == Count())
      ensures Valid() && AllFit() ==> r == Iterated(records, true)
    {
      if |rep| < HEADER {
        return Iterated([], false);
      }
      if Valid() && AllFit() {
        IterationIs();
      }
      var found, ok := DecodeRecords(rep[HEADER..]);
      r := Iterated(found, ok && |found| == Count());
    }

    method DecodeRecords(s: Bytes) returns (found: seq<Record>, ok: bool)
      ensures DecodeAll(s) == Iterated(found, ok)
    {
      var input := s;
      found, ok := [], true;
      while input != []
        invariant DecodesTo(s, found, input)
        decreases |input|
      {
        DecodeConsumes(input);
        DecodesNext(s, found, input);
        var next := Decode(input);
        if next.Bad? {
          return found, false;
        }
        found := found + [next.value];
        input := next.rest;
      }
      assert found + [] == found;
    }

    /** What the batch adds to a memtable: its records, numbered from its sequence on. */
    method InsertInto() returns (entries: seq<Entry>, ok: bool)
      requires |rep| >= HEADER
      ensures Valid() && AllFit() ==> ok && entries == Numbered(Sequence(), records)
    {
      var r := Iterate();
      ok := r.ok;
      entries := InsertAll(Sequence(), r.records);
    }
  }

  /** The handler that inserts records under consecutive sequence numbers. */
  method InsertAll(first: nat, records: seq<Record>) returns (entries: seq<Entry>)
    ensures entries == Numbered(first, records)
  {
    entries := [];
    var sequence := first;
    for i := 0 to |records|
      invariant sequence == first + i && entries == Numbered(first, records[..i])
    {
      entries := entries + [Entry(sequence, records[i])];
      sequence := sequence + 1;
    }
    assert records[..|records|] == records;
  }

  /** The records `found` so far, with those still in the input, are all of them. */
  ghost predicate DecodesTo(s: Bytes, found: seq<Record>, input: Bytes) {
    DecodeAll(s) == Iterated(found + DecodeAll(input).records, DecodeAll(input).ok)
  }

  lemma {:induction false} DecodesNext(s: Bytes, found: seq<Record>, input: Bytes)
    requires DecodesTo(s, found, input) && input != []
    ensures match Decode(input)
            case Bad => DecodeAll(s) == Iterated(found, false)
            case Parsed(r, rest) => DecodesTo(s, found + [r], rest)
  {
    match Decode(input)
    case Bad =>
      assert found + [] == found;
    case Parsed(r, rest) =>
      assert found + ([r] + DecodeAll(rest).records) == (found + [r]) + DecodeAll(rest).records;
  }

  lemma {:induction false} ZeroFixed()
    ensures Fixed(4, 0) == [0, 0, 0, 0] && Fixed(8, 0) == [0, 0, 0, 0, 0, 0, 0, 0]
  {
    assert Fixed(2, 0) == [0, 0] && Fixed(6, 0) == [0, 0] + Fixed(4, 0);
  }

  lemma {:induction false} ModNext(n: nat)
    ensures (n % TWO32 + 1) % TWO32 == (n + 1) % TWO32
  {}

  lemma {:induction false} ModSumOf(a: nat, b: nat)
    ensures (a % TWO32 + b % TWO32) % TWO32 == (a + b) % TWO32
  {}

  lemma {:induction false} PutRegroup(a: Bytes, key: Bytes, value: Bytes)
    ensures ((a + [TYPE_VALUE]) + key) + value == a + ([TYPE_VALUE] + (key + value))
  {}

  /** Appending leaves the header. */
  lemma {:induction false} Grown(before: Bytes, more: Bytes)
    requires |before| >= HEADER
    ensures var rep := before + more;
            rep[..8] == before[..8] && rep[8..HEADER] == before[8..HEADER] && rep[HEADER..] == before[HEADER..] + more
  {}

  /** The batch once a record is appended. */
  lemma {:induction false} Appended(before: Bytes, records: seq<Record>, r: Record, rep: Bytes)
    requires |before| >= HEADER && before[HEADER..] == EncodeAll(records) && rep == before + Encode(r)
    ensures |rep| >= HEADER && rep[..8] == before[..8] && rep[8..HEADER] == before[8..HEADER]
    ensures rep[HEADER..] == EncodeAll(records + [r])
  {
    Grown(before, Encode(r));
    EncodeConcat(Encode, records, [r]);
    EncodeOne(r);
  }
}
