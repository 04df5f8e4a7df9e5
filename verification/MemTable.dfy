/**
  The memtable: entries as byte strings in an ordered list, the key that lookups are made with, and write
  batches going in (db/memtable.cc, db/dbformat.cc, db/write_batch.cc). The search in the list is that of
  SkipList.dfy; here it is the position it finds.
 */
module MemTable {
  import opened Wrappers
  import opened Coding
  import opened BlockFormat
  import opened Block
  import opened Comparator
  import opened TableIndex
  import B = WriteBatch

  // ----- entries -----

  /** The run of bytes at the front of `s`; nothing if it is cut short. */
  function Prefixed(s: Bytes): Bytes {
    match GetLengthPrefixed(s)
    case Bad => []
    case Parsed(run, _) => run
  }

  /** What follows the run at the front. */
  function Behind(s: Bytes): Bytes {
    match GetLengthPrefixed(s)
    case Bad => []
    case Parsed(_, rest) => rest
  }

  /** The internal key and the value of a stored entry, as its readers decode it. */
  function PairOf(entry: Bytes): Pair {
    Pair(Prefixed(entry), Prefixed(Behind(entry)))
  }

  function Mapped(f: Bytes -> Pair, table: seq<Bytes>): seq<Pair> {
    seq(|table|, i requires 0 <= i < |table| => f(table[i]))
  }

  function PairsOf(table: seq<Bytes>): seq<Pair> {
    Mapped(PairOf, table)
  }

  function EntryOf(pair: Pair): Bytes {
    LengthPrefixed(pair.key) + LengthPrefixed(pair.value)
  }

  lemma {:induction false} EntryBack(pair: Pair)
    requires |pair.key| < TWO32 && |pair.value| < TWO32
    ensures PairOf(EntryOf(pair)) == pair
  {
    LengthPrefixedRoundTrip(pair.key, LengthPrefixed(pair.value));
    LengthPrefixedRoundTrip(pair.value, []);
    assert LengthPrefixed(pair.value) + [] == LengthPrefixed(pair.value);
  }

  /** The position of the first entry whose key is not before `key`. */
  function Position(pairs: seq<Pair>, key: Bytes): (p: nat)
    ensures IsSeekIndex(pairs, InternalLess, key, p)
  {
    if pairs == [] || !InternalLess(pairs[0].key, key) then 0
    else
      assert forall i :: 0 <= i < |pairs| - 1 ==> pairs[1..][i] == pairs[i + 1];
      Position(pairs[1..], key) + 1
  }

  // ----- lookup keys -----

  /** LookupKey: the key with its length in front, and where the internal key begins in it. */
  method MakeLookupKey(user: Bytes, snapshot: nat) returns (memKey: Bytes, start: nat)
    requires |user| + 8 < TWO32
    ensures memKey == LengthPrefixed(LookupKey(user, snapshot))
    ensures start <= |memKey| && memKey[start..] == LookupKey(user, snapshot)
  {
    memKey := EncodeVarint32(|user| + 8);
    start := |memKey|;
    memKey := memKey + user;
    memKey := memKey + Fixed(8, PackSequenceAndType(snapshot, VALUE_TYPE_FOR_SEEK));
    assert memKey == Varint(|user| + 8) + LookupKey(user, snapshot);
  }

  // ----- the memtable -----

  datatype Answer = Missing | Deleted | Found(value: Bytes)

  /** What a lookup says about the newest entry that its snapshot sees. */
  function Outcome(newest: Option<Pair>): Answer {
    if newest.None? || |newest.value.key| < 8 then Missing
    else if TagOf(newest.value.key) % 256 == 1 then Found(newest.value.value)
    else Deleted
  }

  ghost predicate Apart(pairs: seq<Pair>, key: Bytes) {
    forall i :: 0 <= i < |pairs| ==> InternalLess(pairs[i].key, key) || InternalLess(key, pairs[i].key)
  }

  lemma {:induction false} InsertedSorted(a: seq<Pair>, pair: Pair, b: seq<Pair>)
    requires KeysSorted(a + b) && Apart(a + b, pair.key) && |pair.key| >= 8
    requires forall i :: 0 <= i < |a| ==> InternalLess(a[i].key, pair.key)
    requires b != [] ==> !InternalLess(b[0].key, pair.key)
    ensures KeysSorted(a + [pair] + b)
  {
    FrontSorted(a, b);
    forall j | 0 <= j < |b|
      ensures InternalLess(pair.key, b[j].key)
    {
      assert (a + b)[|a|] == b[0];
      if j > 0 {
        InternalTransitive(pair.key, b[0].key, b[j].key);
      }
    }
  }

  /** The pairs with one more in place `p`. */
  function With(pairs: seq<Pair>, p: nat, pair: Pair): seq<Pair>
    requires p <= |pairs|
  {
    pairs[..p] + [pair] + pairs[p..]
  }

  /** The parts of a stored entry, put together. */
  lemma {:induction false} JoinedParts(user: Bytes, tag: Bytes, value: Bytes, n: Bytes, m: Bytes)
    ensures n + user + tag + m + value == n + (user + tag) + (m + value)
  {}

  lemma {:induction false} MappedWith(f: Bytes -> Pair, table: seq<Bytes>, p: nat, buf: Bytes)
    requires p <= |table|
    ensures Mapped(f, table[..p] + [buf] + table[p..]) == With(Mapped(f, table), p, f(buf))
  {}

  lemma {:induction false} KindsWith(pairs: seq<Pair>, p: nat, pair: Pair)
    requires p <= |pairs| && KindsOk(pairs) && ParseInternalKey(pair.key).Some?
    ensures KindsOk(With(pairs, p, pair))
  {}

  lemma {:induction false} SortedWith(was: seq<Pair>, p: nat, pair: Pair)
    requires KeysSorted(was) && Apart(was, pair.key) && |pair.key| >= 8
    requires IsSeekIndex(was, InternalLess, pair.key, p)
    ensures KeysSorted(With(was, p, pair))
  {
    assert was == was[..p] + was[p..];
    InsertedSorted(was[..p], pair, was[p..]);
  }

  /** The bytes of an entry; their number is known beforehand. */
  method EncodeEntry(sequence: nat, kind: nat, key: Bytes, value: Bytes) returns (buf: Bytes)
    requires |key| + 8 < TWO32 && |value| < TWO32
    ensures buf == EntryOf(Pair(AppendInternalKey(ParsedKey(key, sequence, kind)), value))
  {
    var keyLength := VarintLength(|key| + 8);
    var valueLength := VarintLength(|value|);
    var encodedLength := keyLength + (|key| + 8) + valueLength + |value|;
    buf := EncodeVarint32(|key| + 8);
    buf := buf + key;
    buf := buf + Fixed(8, PackSequenceAndType(sequence, kind));
    var size := EncodeVarint32(|value|);
    buf := buf + size;
    buf := buf + value;
    assert |buf| == encodedLength;
    JoinedParts(key, Fixed(8, PackSequenceAndType(sequence, kind)), value, Varint(|key| + 8), size);
  }

  class MemTable {
    var table: seq<Bytes>

    ghost function Pairs(): seq<Pair>
      reads this
    {
      PairsOf(table)
    }

    ghost predicate Valid()
      reads this
    {
      KeysSorted(Pairs()) && KindsOk(Pairs())
    }

    constructor ()
      ensures Valid() && Pairs() == []
    {
      table := [];
    }

    /** Encodes an entry and links it in; the list must not hold its key yet. */
    method Add(sequence: nat, kind: nat, key: Bytes, value: Bytes) returns (ghost p: nat)
      requires Valid() && sequence <= MAX_SEQUENCE && kind <= 1 && |key| + 8 < TWO32 && |value| < TWO32
      requires Apart(Pairs(), AppendInternalKey(ParsedKey(key, sequence, kind)))
      modifies this
      ensures Valid()
      ensures p <= |old(Pairs())|
      ensures Pairs() == With(old(Pairs()), p, Pair(AppendInternalKey(ParsedKey(key, sequence, kind)), value))
    {
      var buf := EncodeEntry(sequence, kind, key, value);
      ghost var pair := Pair(AppendInternalKey(ParsedKey(key, sequence, kind)), value);
      EntryBack(pair);
      ParsedBack(ParsedKey(key, sequence, kind));
      p := Link(buf, pair);
    }

    /** The list's insertion: in front of the first entry that is not before the new one. */
    method Link(buf: Bytes, ghost pair: Pair) returns (ghost at: nat)
      requires Valid() && PairOf(buf) == pair && ParseInternalKey(pair.key).Some? && Apart(Pairs(), pair.key)
      modifies this
      ensures Valid()
      ensures at <= |old(Pairs())| && Pairs() == With(old(Pairs()), at, pair)
    {
      var p := Position(PairsOf(table), Prefixed(buf));
      SortedWith(PairsOf(table), p, pair);
      KindsWith(PairsOf(table), p, pair);
      MappedWith(PairOf, table, p, buf);
      table := table[..p] + [buf] + table[p..];
      at := p;
    }

    /** Seeks to the lookup key and looks at the entry there: its user key and its type. */
    method Get(user: Bytes, snapshot: nat) returns (r: Answer, ghost newest: Option<Pair>)
      requires Valid() && snapshot <= MAX_SEQUENCE && |user| + 8 < TWO32
      ensures Answers(Pairs(), user, snapshot, r)
      ensures IsNewestOf(Pairs(), user, snapshot, newest) && r == Outcome(newest)
    {
      var memKey, start := MakeLookupKey(user, snapshot);
      KeyBack(LookupKey(user, snapshot));
      var at := Position(PairsOf(table), Prefixed(memKey));
      ReportedIsNewest(Pairs(), user, snapshot, at);
      LookupParts(user, snapshot);
      newest := Reported(Pairs(), at, LookupKey(user, snapshot));
      r := Missing;
      if at < |table| {
        assert Pairs()[at] == PairOf(table[at]) && |Pairs()[at].key| >= 8;
        var key := Prefixed(table[at]);
        if ExtractUserKey(key) == user {
          r := if TagOf(key) % 256 == 1 then Found(Prefixed(Behind(table[at]))) else Deleted;
        }
      }
    }
  }

  lemma {:induction false} KeyBack(key: Bytes)
    requires |key| < TWO32
    ensures Prefixed(LengthPrefixed(key)) == key
  {
    LengthPrefixedRoundTrip(key, []);
    assert LengthPrefixed(key) + [] == LengthPrefixed(key);
  }

  // ----- batches -----

  /** A record as an entry of the memtable. */
  function Numbered(sequence: nat, r: B.Record): Pair {
    match r
    case Put(key, value) => Pair(AppendInternalKey(ParsedKey(key, sequence, 1)), value)
    case Delete(key) => Pair(AppendInternalKey(ParsedKey(key, sequence, 0)), [])
  }

  /** Every sequence number of the table is below `n`. */
  ghost predicate Below(pairs: seq<Pair>, n: nat) {
    forall i :: 0 <= i < |pairs| ==> |pairs[i].key| >= 8 && TagOf(pairs[i].key) / 256 < n
  }

  lemma {:induction false} NewIsApart(pairs: seq<Pair>, n: nat, key: Bytes)
    requires Below(pairs, n) && |key| >= 8 && TagOf(key) / 256 == n
    ensures Apart(pairs, key)
  {
    forall i | 0 <= i < |pairs|
      ensures InternalLess(pairs[i].key, key) || InternalLess(key, pairs[i].key)
    {
      BytesTotal(ExtractUserKey(pairs[i].key), ExtractUserKey(key));
    }
  }

  lemma {:induction false} NumberedParts(sequence: nat, r: B.Record)
    requires sequence <= MAX_SEQUENCE
    ensures var key := Numbered(sequence, r).key;
            |key| >= 8 && ExtractUserKey(key) == r.key && TagOf(key) / 256 == sequence
            && TagOf(key) % 256 == if r.Put? then 1 else 0
  {
    var kind := if r.Put? then 1 else 0;
    Unpacks(sequence, kind);
    Appended(r.key, PackSequenceAndType(sequence, kind));
  }

  /** The records that reach the table, the last one of each user key deciding. */
  function LastFor(records: seq<B.Record>, user: Bytes): Option<B.Record> {
    if records == [] then None
    else
      var last := records[|records| - 1];
      if last.key == user then Some(last) else LastFor(records[..|records| - 1], user)
  }

  /** What a lookup says after the records: what the last one of its user key says, or what it said before. */
  function Updated(before: Answer, records: seq<B.Record>, user: Bytes): Answer {
    match LastFor(records, user)
    case None => before
    case Some(Put(_, value)) => Found(value)
    case Some(Delete(_)) => Deleted
  }

  /** A lookup of a user key at a snapshot may answer this. */
  ghost predicate Answers(pairs: seq<Pair>, user: Bytes, snapshot: nat, a: Answer) {
    exists newest :: IsNewestOf(pairs, user, snapshot, newest) && Outcome(newest) == a
  }

  lemma {:induction false} WithMembers(before: seq<Pair>, p: nat, pair: Pair)
    requires p <= |before|
    ensures forall x :: x in With(before, p, pair) <==> x in before || x == pair
  {
    var after := With(before, p, pair);
    assert after[p] == pair;
    forall i | 0 <= i < |before|
      ensures before[i] in after
    {
      assert after[if i < p then i else i + 1] == before[i];
    }
  }

  /** IsNewestOf by membership. */
  lemma {:induction false} NewestMembers(pairs: seq<Pair>, more: seq<Pair>, user: Bytes, s: nat, t: nat,
                                         r: Option<Pair>)
    requires IsNewestOf(pairs, user, s, r) && forall x :: x in pairs ==> x in more
    requires forall x :: x in more && Sees(x.key, user, t) ==> x in pairs && Sees(x.key, user, s)
    requires r.Some? ==> Sees(r.value.key, user, t)
    ensures IsNewestOf(more, user, t, r)
  {
    forall i | 0 <= i < |more| && Sees(more[i].key, user, t)
      ensures exists j :: 0 <= j < |pairs| && pairs[j] == more[i]
    {
      assert more[i] in pairs;
    }
  }

  lemma {:induction false} NewerIsNewest(pairs: seq<Pair>, n: nat, pair: Pair)
    requires |pair.key| >= 8 && TagOf(pair.key) / 256 == n && pair in pairs
    requires forall x :: x in pairs ==> |x.key| >= 8 && TagOf(x.key) / 256 <= n
    ensures IsNewestOf(pairs, ExtractUserKey(pair.key), n, Some(pair))
  {}

  /** An entry newer than all others answers for its user key, and changes no other answer. */
  lemma {:induction false} AnswerAfter(before: seq<Pair>, p: nat, n: nat, r: B.Record, user: Bytes, a: Answer)
    requires p <= |before| && 0 < n <= MAX_SEQUENCE && Below(before, n) && Answers(before, user, n - 1, a)
    ensures Answers(With(before, p, Numbered(n, r)), user, n, Updated(a, [r], user))
  {
    var pair := Numbered(n, r);
    NumberedParts(n, r);
    WithMembers(before, p, pair);
    if r.key == user {
      AnswerIsNew(With(before, p, pair), n, r, a);
    } else {
      AnswerIsOld(before, With(before, p, pair), n, r, user, a);
    }
  }

  lemma {:induction false} AnswerIsNew(pairs: seq<Pair>, n: nat, r: B.Record, a: Answer)
    requires 0 < n <= MAX_SEQUENCE && Numbered(n, r) in pairs
    requires forall x :: x in pairs ==> |x.key| >= 8 && TagOf(x.key) / 256 <= n
    ensures Answers(pairs, r.key, n, Updated(a, [r], r.key))
  {
    var pair := Numbered(n, r);
    NumberedParts(n, r);
    NewerIsNewest(pairs, n, pair);
    OneRecord(r, r.key);
    assert Outcome(Some(pair)) == Updated(a, [r], r.key);
  }

  lemma {:induction false} AnswerIsOld(before: seq<Pair>, after: seq<Pair>, n: nat, r: B.Record, user: Bytes, a: Answer)
    requires 0 < n <= MAX_SEQUENCE && Below(before, n) && Answers(before, user, n - 1, a) && r.key != user
    requires forall x :: x in after <==> x in before || x == Numbered(n, r)
    ensures Answers(after, user, n, Updated(a, [r], user))
  {
    NumberedParts(n, r);
    var newest :| IsNewestOf(before, user, n - 1, newest) && Outcome(newest) == a;
    NewestMembers(before, after, user, n - 1, n, newest);
    OneRecord(r, user);
  }

  /** What a snapshot before the new entry sees stays the same. */
  lemma {:induction false} AnswerStays(before: seq<Pair>, p: nat, n: nat, r: B.Record, user: Bytes, s: nat, a: Answer)
    requires p <= |before| && s < n <= MAX_SEQUENCE && Answers(before, user, s, a)
    ensures Answers(With(before, p, Numbered(n, r)), user, s, a)
  {
    NumberedParts(n, r);
    WithMembers(before, p, Numbered(n, r));
    var newest :| IsNewestOf(before, user, s, newest) && Outcome(newest) == a;
    NewestMembers(before, With(before, p, Numbered(n, r)), user, s, s, newest);
  }

  lemma {:induction false} BelowAfter(before: seq<Pair>, p: nat, n: nat, r: B.Record)
    requires p <= |before| && n <= MAX_SEQUENCE && Below(before, n)
    ensures Below(With(before, p, Numbered(n, r)), n + 1)
  {
    NumberedParts(n, r);
  }

  lemma {:induction false} OneRecord(r: B.Record, user: Bytes)
    ensures LastFor([r], user) == if r.key == user then Some(r) else None
  {
    assert [r][..0] == [] && LastFor([], user) == None;
  }

  lemma {:induction false} UpdatedMore(a: Answer, records: seq<B.Record>, r: B.Record, user: Bytes)
    ensures Updated(a, records + [r], user) == Updated(Updated(a, records, user), [r], user)
  {
    assert (records + [r])[..|records|] == records;
    OneRecord(r, user);
  }

  datatype Aspect = Numbers | Latest | Earlier

  /** After some records: the answers at their last sequence number, and those at earlier snapshots. */
  ghost predicate ReadsAspect(x: Aspect, before: seq<Pair>, after: seq<Pair>, first: nat, records: seq<B.Record>) {
    match x
    case Numbers => first > 0 && Below(after, first + |records|)
    case Latest => first > 0 && forall user, a :: Answers(before, user, first - 1, a) ==>
      Answers(after, user, first + |records| - 1, Updated(a, records, user))
    case Earlier => forall user, s: nat, a :: s < first && Answers(before, user, s, a) ==> Answers(after, user, s, a)
  }

  ghost predicate Reads(before: seq<Pair>, after: seq<Pair>, first: nat, records: seq<B.Record>) {
    forall x :: ReadsAspect(x, before, after, first, records)
  }

  lemma {:induction false} ReadsLatest(before: seq<Pair>, now: seq<Pair>, p: nat, first: nat, records: seq<B.Record>,
                                       r: B.Record)
    requires p <= |now| && 0 < first && first + |records| <= MAX_SEQUENCE && Below(now, first + |records|)
    requires ReadsAspect(Latest, before, now, first, records)
    ensures ReadsAspect(Latest, before, With(now, p, Numbered(first + |records|, r)), first, records + [r])
  {
    var n := first + |records|;
    forall user, a | Answers(before, user, first - 1, a)
      ensures Answers(With(now, p, Numbered(n, r)), user, n, Updated(a, records + [r], user))
    {
      AnswerAfter(now, p, n, r, user, Updated(a, records, user));
      UpdatedMore(a, records, r, user);
    }
  }

  lemma {:induction false} ReadsEarlier(before: seq<Pair>, now: seq<Pair>, p: nat, first: nat, records: seq<B.Record>,
                                        r: B.Record)
    requires p <= |now| && 0 < first && first + |records| <= MAX_SEQUENCE
    requires ReadsAspect(Earlier, before, now, first, records)
    ensures ReadsAspect(Earlier, before, With(now, p, Numbered(first + |records|, r)), first, records + [r])
  {
    var n := first + |records|;
    forall user, s: nat, a | s < first && Answers(before, user, s, a)
      ensures Answers(With(now, p, Numbered(n, r)), user, s, a)
    {
      AnswerStays(now, p, n, r, user, s, a);
    }
  }

  lemma {:induction false} ReadsMore(before: seq<Pair>, now: seq<Pair>, p: nat, first: nat, records: seq<B.Record>,
                                     r: B.Record)
    requires p <= |now| && 0 < first && first + |records| <= MAX_SEQUENCE && Reads(before, now, first, records)
    ensures Reads(before, With(now, p, Numbered(first + |records|, r)), first, records + [r])
  {
    assert ReadsAspect(Numbers, before, now, first, records);
    BelowAfter(now, p, first + |records|, r);
    ReadsLatest(before, now, p, first, records, r);
    ReadsEarlier(before, now, p, first, records, r);
    var after, more := With(now, p, Numbered(first + |records|, r)), records + [r];
    forall x
      ensures ReadsAspect(x, before, after, first, more)
    {
      assert x.Numbers? || x.Latest? || x.Earlier?;
    }
  }

  /** The records' keys and values fit the fields of an entry. */
  predicate AllSmall(records: seq<B.Record>) {
    forall i :: 0 <= i < |records| ==>
      |records[i].key| + 8 < TWO32 && (records[i].Put? ==> |records[i].value| < TWO32)
  }

  /** WriteBatchInternal::InsertInto: each record under the next sequence number. */
  method InsertInto(batch: B.WriteBatch, mem: MemTable) returns (ok: bool)
    requires batch.Valid() && batch.AllFit() && AllSmall(batch.records) && mem.Valid()
    requires 0 < batch.Sequence() && batch.Sequence() + |batch.records| <= MAX_SEQUENCE + 1
    requires Below(mem.Pairs(), batch.Sequence())
    modifies mem
    ensures ok && mem.Valid() && Reads(old(mem.Pairs()), mem.Pairs(), batch.Sequence(), batch.records)
  {
    ghost var before, records, first := mem.Pairs(), batch.records, batch.Sequence();
    var entries;
    entries, ok := batch.InsertInto();
    NoRecords(before, first, records[..0]);
    for i := 0 to |entries|
      invariant mem.Valid() && Reads(before, mem.Pairs(), first, records[..i])
    {
      TakeRecord(mem, entries[i], before, first, records[..i]);
      assert records[..i + 1] == records[..i] + [records[i]];
    }
    assert records[..|records|] == records;
  }

  /** One record more; `done` are the ones before it. */
  method TakeRecord(mem: MemTable, entry: B.Entry, ghost before: seq<Pair>, ghost first: nat,
                    ghost done: seq<B.Record>)
    requires mem.Valid() && 0 < first && first + |done| <= MAX_SEQUENCE && Reads(before, mem.Pairs(), first, done)
    requires entry.sequence == first + |done| && AllSmall([entry.record])
    modifies mem
    ensures mem.Valid() && Reads(before, mem.Pairs(), first, done + [entry.record])
  {
    ghost var now := mem.Pairs();
    assert ReadsAspect(Numbers, before, now, first, done);
    assert [entry.record][0] == entry.record;
    ghost var p := AddRecord(mem, entry.sequence, entry.record);
    ReadsMore(before, now, p, first, done, entry.record);
  }

  lemma {:induction false} NoRecords(pairs: seq<Pair>, first: nat, none: seq<B.Record>)
    requires first > 0 && Below(pairs, first) && none == []
    ensures Reads(pairs, pairs, first, none)
  {
    assert forall user, a :: Updated(a, none, user) == a;
    forall x
      ensures ReadsAspect(x, pairs, pairs, first, none)
    {
      assert x.Numbers? || x.Latest? || x.Earlier?;
    }
  }

  /** The handler that puts one record into a memtable. */
  method AddRecord(mem: MemTable, sequence: nat, r: B.Record) returns (ghost p: nat)
    requires mem.Valid() && sequence <= MAX_SEQUENCE && Below(mem.Pairs(), sequence)
    requires |r.key| + 8 < TWO32 && (r.Put? ==> |r.value| < TWO32)
    modifies mem
    ensures mem.Valid() && p <= |old(mem.Pairs())| && mem.Pairs() == With(old(mem.Pairs()), p, Numbered(sequence, r))
  {
    NumberedParts(sequence, r);
    NewIsApart(mem.Pairs(), sequence, Numbered(sequence, r).key);
    match r
    case Put(key, value) => p := mem.Add(sequence, 1, key, value);
    case Delete(key) => p := mem.Add(sequence, 0, key, []);
  }
}
