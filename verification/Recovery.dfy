/**
  What a crash leaves of the writes (db/db_impl.cc, RecoverLogFile): the log is replayed into a new memtable,
  which then answers every read as the batches that survived whole say.
 */
module Recovery {
  import opened Wrappers
  import opened Coding
  import opened BlockFormat
  import opened Comparator
  import opened TableIndex
  import opened MemTable
  import B = WriteBatch
  import LogRecords
  import LogFormat
  import Schemes
  import Log

  /** A batch as it was committed: where its sequence numbers begin, and its records. */
  datatype Commit = Commit(sequence: nat, records: seq<B.Record>)

  /** The bytes of the batch, which are its record in the log. */
  function Rep(c: Commit): (r: Bytes)
    ensures |r| >= B.HEADER
  {
    Fixed(8, c.sequence) + Fixed(4, |c.records| % TWO32) + B.EncodeAll(c.records)
  }

  function Reps(cs: seq<Commit>): seq<Bytes> {
    seq(|cs|, i requires 0 <= i < |cs| => Rep(cs[i]))
  }

  function AllRecords(cs: seq<Commit>): seq<B.Record> {
    if cs == [] then [] else AllRecords(cs[..|cs| - 1]) + cs[|cs| - 1].records
  }

  ghost predicate CommitOk(c: Commit) {
    && 0 < c.sequence && c.sequence + |c.records| <= MAX_SEQUENCE && |c.records| < TWO32 && AllSmall(c.records)
    && forall i :: 0 <= i < |c.records| ==> B.Fits(c.records[i])
  }

  /** Sequence numbers ascend from batch to batch; numbers that a failed write used up are missing. */
  ghost predicate CommitsOk(cs: seq<Commit>) {
    && (forall i :: 0 <= i < |cs| ==> CommitOk(cs[i]))
    && (forall i, j :: 0 <= i < j < |cs| ==> cs[i].sequence + |cs[i].records| <= cs[j].sequence)
  }

  /** The last sequence number in use after some batches. */
  function Top(cs: seq<Commit>): nat {
    if cs == [] then 0
    else
      var last := cs[|cs| - 1];
      if last.sequence + |last.records| == 0 then 0 else last.sequence + |last.records| - 1
  }

  // ----- answers -----

  /** With these batches in it, the memtable answers reads at `top` as the last record of each user key says. */
  ghost predicate Recovered(pairs: seq<Pair>, top: nat, records: seq<B.Record>) {
    Below(pairs, top + 1) && forall user :: Answers(pairs, user, top, Updated(Missing, records, user))
  }

  lemma {:induction false} NothingYet()
    ensures Recovered([], 0, [])
  {
    forall user
      ensures Answers([], user, 0, Updated(Missing, [], user))
    {
      assert IsNewestOf([], user, 0, None);
    }
  }

  /** Numbers that nothing uses do not change an answer. */
  lemma {:induction false} AnswersLater(pairs: seq<Pair>, user: Bytes, top: nat, later: nat, a: Answer)
    requires Below(pairs, top + 1) && top <= later && Answers(pairs, user, top, a)
    ensures Answers(pairs, user, later, a)
  {
    var newest :| IsNewestOf(pairs, user, top, newest) && Outcome(newest) == a;
    forall x | x in pairs
      ensures Sees(x.key, user, top) <==> Sees(x.key, user, later)
    {
      var i :| 0 <= i < |pairs| && pairs[i] == x;
    }
    NewestMembers(pairs, pairs, user, top, later, newest);
  }

  lemma {:induction false} UpdatedConcat(a: Answer, rs: seq<B.Record>, more: seq<B.Record>, user: Bytes)
    ensures Updated(a, rs + more, user) == Updated(Updated(a, rs, user), more, user)
    decreases |more|
  {
    if more == [] {
      assert rs + more == rs;
    } else {
      var n := |more| - 1;
      UpdatedConcat(a, rs, more[..n], user);
      assert rs + more == (rs + more[..n]) + [more[n]] && more == more[..n] + [more[n]];
      UpdatedMore(a, rs + more[..n], more[n], user);
      UpdatedMore(Updated(a, rs, user), more[..n], more[n], user);
    }
  }

  /** One batch more. */
  lemma {:induction false} RecoveredMore(before: seq<Pair>, after: seq<Pair>, top: nat, rs: seq<B.Record>, c: Commit)
    requires Recovered(before, top, rs) && top < c.sequence && Reads(before, after, c.sequence, c.records)
    ensures Recovered(after, c.sequence + |c.records| - 1, rs + c.records)
  {
    assert ReadsAspect(Numbers, before, after, c.sequence, c.records);
    assert ReadsAspect(Latest, before, after, c.sequence, c.records);
    forall user
      ensures Answers(after, user, c.sequence + |c.records| - 1, Updated(Missing, rs + c.records, user))
    {
      AnswersLater(before, user, top, c.sequence - 1, Updated(Missing, rs, user));
      UpdatedConcat(Missing, rs, c.records, user);
    }
  }

  lemma {:induction false} BelowLater(pairs: seq<Pair>, n: nat, m: nat)
    requires Below(pairs, n) && n <= m
    ensures Below(pairs, m)
  {}

  // ----- replaying -----

  lemma {:induction false} RepParts(c: Commit)
    requires c.sequence < TWO64
    ensures var r := Rep(c);
            && Unfixed(r[..8]) == c.sequence && r[8..B.HEADER] == Fixed(4, |c.records| % TWO32)
            && r[B.HEADER..] == B.EncodeAll(c.records)
  {
    var r := Rep(c);
    assert r[..8] == Fixed(8, c.sequence);
    Fixed64RoundTrip(c.sequence);
  }

  lemma {:induction false} TopMore(cs: seq<Commit>, c: Commit)
    requires CommitsOk(cs + [c])
    ensures CommitsOk(cs) && CommitOk(c) && Top(cs) < c.sequence
    ensures Top(cs + [c]) == c.sequence + |c.records| - 1 && AllRecords(cs + [c]) == AllRecords(cs) + c.records
  {
    var all := cs + [c];
    assert all[|cs|] == c && all[..|cs|] == cs;
    forall i | 0 <= i < |cs|
      ensures all[i] == cs[i]
    {}
    if cs != [] {
      assert all[|cs| - 1].sequence + |all[|cs| - 1].records| <= all[|cs|].sequence;
    }
  }

  /** One record of the log, as a batch, into the memtable; its last number, if it is a new maximum. */
  method ReplayRecord(record: Bytes, mem: MemTable, maxSequence: nat, ghost c: Commit)
      returns (newMax: nat, ok: bool)
    requires mem.Valid() && CommitOk(c) && record == Rep(c) && Below(mem.Pairs(), c.sequence)
    modifies mem
    ensures ok && mem.Valid() && Reads(old(mem.Pairs()), mem.Pairs(), c.sequence, c.records)
    ensures newMax == if c.sequence + |c.records| - 1 > maxSequence then c.sequence + |c.records| - 1 else maxSequence
  {
    newMax := maxSequence;
    if |record| < B.HEADER {
      return newMax, false;
    }
    RepParts(c);
    var batch := new B.WriteBatch();
    batch.SetContents(record, c.records);
    ok := InsertInto(batch, mem);
    batch.CountIs();
    Small(|c.records|);
    var lastSequence := batch.Sequence() + batch.Count() - 1;
    if lastSequence > maxSequence {
      newMax := lastSequence;
    }
  }

  lemma {:induction false} Small(n: nat)
    requires n < TWO32
    ensures n % TWO32 == n
  {}

  /** RecoverLogFile over the records that the reader returned. */
  method ReplayLog(kept: seq<Bytes>, ghost cs: seq<Commit>) returns (mem: MemTable, maxSequence: nat)
    requires CommitsOk(cs) && kept == Reps(cs)
    ensures fresh(mem) && mem.Valid() && maxSequence == Top(cs) && Recovered(mem.Pairs(), Top(cs), AllRecords(cs))
  {
    mem := new MemTable();
    maxSequence := 0;
    NothingYet();
    for i := 0 to |kept|
      invariant fresh(mem) && mem.Valid() && maxSequence == Top(cs[..i])
      invariant Recovered(mem.Pairs(), Top(cs[..i]), AllRecords(cs[..i]))
    {
      ghost var c := cs[i];
      PrefixOk(cs, i);
      ghost var before := mem.Pairs();
      BelowLater(before, Top(cs[..i]) + 1, c.sequence);
      var ok;
      maxSequence, ok := ReplayRecord(kept[i], mem, maxSequence, c);
      RecoveredMore(before, mem.Pairs(), Top(cs[..i]), AllRecords(cs[..i]), c);
    }
    assert cs[..|kept|] == cs;
  }

  lemma {:induction false} PrefixOk(cs: seq<Commit>, i: nat)
    requires CommitsOk(cs) && i < |cs|
    ensures cs[..i + 1] == cs[..i] + [cs[i]] && CommitOk(cs[i]) && Top(cs[..i]) < cs[i].sequence
    ensures Top(cs[..i + 1]) == cs[i].sequence + |cs[i].records| - 1
    ensures AllRecords(cs[..i + 1]) == AllRecords(cs[..i]) + cs[i].records
  {
    assert cs[..i + 1] == cs[..i] + [cs[i]];
    assert CommitsOk(cs[..i + 1]);
    TopMore(cs[..i], cs[i]);
  }

  /**
    Batches written to the log, the log cut anywhere, and replayed: the new memtable answers every read as the
    batches say whose records lie whole in what is left.
   */
  method CommitAndRecover(cs: seq<Commit>, n: nat)
      returns (mem: MemTable, maxSequence: nat, ghost k: nat)
    requires CommitsOk(cs) && n <= |LogFormat.LogOf(Schemes.LOG, Reps(cs))|
    ensures fresh(mem) && mem.Valid() && LogRecords.Whole(LogFormat.Emitter(Schemes.LOG), 0, Reps(cs), n, k)
    ensures k <= |cs| && maxSequence == Top(cs[..k]) && Recovered(mem.Pairs(), Top(cs[..k]), AllRecords(cs[..k]))
  {
    var kept;
    kept, k := Survivors(cs, n);
    mem, maxSequence := ReplayLog(kept, cs[..k]);
  }

  lemma {:induction false} RepsPrefix(cs: seq<Commit>, k: nat)
    requires k <= |cs|
    ensures Reps(cs)[..k] == Reps(cs[..k])
  {}

  /** The log records that a crash leaves whole. */
  method Survivors(cs: seq<Commit>, n: nat) returns (kept: seq<Bytes>, ghost k: nat)
    requires n <= |LogFormat.LogOf(Schemes.LOG, Reps(cs))|
    ensures k <= |cs| && kept == Reps(cs[..k])
    ensures LogRecords.Whole(LogFormat.Emitter(Schemes.LOG), 0, Reps(cs), n, k)
  {
    var lost;
    kept, lost := Log.CrashAndRecover(Reps(cs), n);
    k :| LogRecords.Whole(LogFormat.Emitter(Schemes.LOG), 0, Reps(cs), n, k) && kept == Reps(cs)[..k];
    RepsPrefix(cs, k);
  }
}
