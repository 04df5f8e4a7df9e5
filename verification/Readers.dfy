/**
  What clients of the store see over a whole run: operations are numbered as they were written, a read
  gives what the last operation on its key wrote, and a snapshot is held until its own release
  (db/db_impl.cc, db/snapshot.h).
 */
module Readers {
  import opened Wrappers
  import opened DbFormat
  import opened CompactionWork
  import opened Store
  import opened StoreRuns

  // ----- reads as last writes -----

  /** Every operation of a run, in the order it was written. */
  ghost function AllOps(run: Run): seq<Op> {
    match run
    case Start => []
    case Then(before, step) => AllOps(before) + (if step.Write? then step.ops else [])
  }

  /** What the last operation on a user key wrote: a value, or nothing if it was a deletion or there is none. */
  function LastWrite(ops: seq<Op>, user: int): Option<Bytes> {
    if ops == [] then None
    else
      var last := ops[|ops| - 1];
      if last.user == user then (if last.kind.Value? then Some(last.value) else None)
      else LastWrite(ops[..|ops| - 1], user)
  }

  lemma {:induction false} BatchMember(ops: seq<Op>, first: nat, e: Entry)
    ensures e in BatchEntries(ops, first) <==>
            exists i :: 0 <= i < |ops| && e == Entry(IKey(ops[i].user, first + i, ops[i].kind), ops[i].value)
  {}

  lemma {:induction false} BatchConcat(a: seq<Op>, b: seq<Op>, first: nat)
    ensures BatchEntries(a + b, first) == BatchEntries(a, first) + BatchEntries(b, first + |a|)
  {
    var all := a + b;
    forall e
      ensures e in BatchEntries(all, first) <==> e in BatchEntries(a, first) || e in BatchEntries(b, first + |a|)
    {
      if e in BatchEntries(all, first) {
        var i :| 0 <= i < |all| && e == Entry(IKey(all[i].user, first + i, all[i].kind), all[i].value);
        if i < |a| {
          assert all[i] == a[i];
        } else {
          assert all[i] == b[i - |a|] && first + i == first + |a| + (i - |a|);
        }
      }
      if e in BatchEntries(a, first) {
        var i :| 0 <= i < |a| && e == Entry(IKey(a[i].user, first + i, a[i].kind), a[i].value);
        assert all[i] == a[i];
      }
      if e in BatchEntries(b, first + |a|) {
        var i :| 0 <= i < |b| && e == Entry(IKey(b[i].user, first + |a| + i, b[i].kind), b[i].value);
        assert all[|a| + i] == b[i] && first + |a| + i == first + (|a| + i);
      }
    }
  }

  /** The history of a run is its operations, numbered from one without gaps. */
  lemma {:induction false} HistoryIsNumbered(run: Run)
    requires IsRun(run)
    ensures Current(run).lastSequence == |AllOps(run)| && History(run) == BatchEntries(AllOps(run), 1)
    decreases run
  {
    if run.Then? {
      HistoryIsNumbered(run.before);
      StepNumbers(Current(run.before), run.step, AllOps(run.before));
    } else {
      assert BatchEntries([], 1) == {};
    }
  }

  lemma {:induction false} StepNumbers(db: DB, step: Step, ops: seq<Op>)
    requires Enabled(db, step) && db.lastSequence == |ops|
    ensures var all := ops + (if step.Write? then step.ops else []);
            && After(db, step).lastSequence == |all|
            && BatchEntries(ops, 1) + Written(db, step) == BatchEntries(all, 1)
  {
    if step.Write? {
      BatchConcat(ops, step.ops, 1);
    } else {
      assert ops + [] == ops;
    }
  }

  lemma {:induction false} SameNewest(s: set<Entry>, user: int, a: nat, b: nat)
    requires Unique(s) && forall x :: x in s ==> (Visible(x, user, a) <==> Visible(x, user, b))
    ensures ReadAt(s, user, a) == ReadAt(s, user, b)
  {
    NewestExists(s, user, a);
    NewestExists(s, user, b);
    if Newest(s, user, a).Some? {
      var e := Newest(s, user, a).value;
      assert IsNewest(s, user, a, e);
      assert IsNewest(s, user, b, e);
      NewestIs(s, user, b, e);
    }
  }

  /** Reading numbered operations at `n` gives what the last of the first `n` on the user key wrote. */
  lemma {:induction false} NumberedRead(ops: seq<Op>, user: int, n: nat)
    requires n <= |ops|
    ensures ReadAt(BatchEntries(ops, 1), user, n) == LastWrite(ops[..n], user)
  {
    var all := BatchEntries(ops, 1);
    BatchNewest(ops, 1);
    if n == 0 {
      NewestNone(all, user, 0);
    } else if ops[n - 1].user == user {
      var e := Entry(IKey(user, n, ops[n - 1].kind), ops[n - 1].value);
      assert e == Entry(IKey(ops[n - 1].user, 1 + (n - 1), ops[n - 1].kind), ops[n - 1].value);
      BatchMember(ops, 1, e);
      assert IsNewest(all, user, n, e);
      NewestIs(all, user, n, e);
    } else {
      NumberedRead(ops, user, n - 1);
      assert ops[..n][..n - 1] == ops[..n - 1];
      forall x | x in all
        ensures Visible(x, user, n) <==> Visible(x, user, n - 1)
      {
        NotNumbered(ops, user, n, x);
      }
      SameNewest(all, user, n, n - 1);
    }
  }

  lemma {:induction false} NotNumbered(ops: seq<Op>, user: int, n: nat, x: Entry)
    requires 0 < n <= |ops| && ops[n - 1].user != user && x in BatchEntries(ops, 1)
    ensures Visible(x, user, n) <==> Visible(x, user, n - 1)
  {
    BatchMember(ops, 1, x);
  }

  /** Every read at a readable snapshot gives what the last operation on the key wrote by then. */
  lemma {:induction false} ReadsAreLastWrites(run: Run, user: int, s: nat)
    requires IsRun(run) && AllGuarded(run) && Readable(Current(run), s)
    ensures s <= |AllOps(run)|
    ensures ReadAt(AllEntries(Current(run)), user, s) == LastWrite(AllOps(run)[..s], user)
  {
    RunOk(run);
    GuardedIsTruthful(run);
    HistoryIsNumbered(run);
    NumberedRead(AllOps(run), user, s);
  }

  // ----- snapshots -----

  /** How many snapshots have been taken and not released. */
  function HeldCount(run: Run): int {
    match run
    case Start => 0
    case Then(before, step) =>
      HeldCount(before) + (if step.TakeSnapshot? then 1 else if step.ReleaseSnapshot? then -1 else 0)
  }

  /**
    The place, among the snapshots held after `later`, of the one that `taken` ended with; none if it has been
    released. A release names a place; those behind it move up.
   */
  function Place(later: Run, taken: Run): Option<int>
    decreases later
  {
    if later == taken || later.Start? then
      Some(HeldCount(taken) - 1)
    else
      match Place(later.before, taken)
      case None => None
      case Some(p) =>
        if !later.step.ReleaseSnapshot? || later.step.index > p then Some(p)
        else if later.step.index == p then None
        else Some(p - 1)
  }

  lemma {:induction false} HeldAreCounted(run: Run)
    requires IsRun(run)
    ensures |Current(run).snapshots| == HeldCount(run)
    decreases run
  {
    if run.Then? {
      HeldAreCounted(run.before);
    }
  }

  /** A release gives up one snapshot and a take adds one; nothing else changes what is held. */
  lemma {:induction false} StepHolds(db: DB, step: Step)
    requires Enabled(db, step)
    ensures var held, now := multiset(db.snapshots), multiset(After(db, step).snapshots);
            if step.TakeSnapshot? then now == held + multiset{db.lastSequence}
            else if step.ReleaseSnapshot? then held == now + multiset{db.snapshots[step.index]}
            else now == held
  {
    if step.ReleaseSnapshot? {
      var i := step.index;
      assert db.snapshots == db.snapshots[..i] + ([db.snapshots[i]] + db.snapshots[i + 1..]);
    }
  }

  /** A snapshot that has not been released is where it is said to be. */
  lemma {:induction false} HeldSnapshot(later: Run, taken: Run)
    requires IsRun(later) && IsRun(taken) && Extends(later, taken)
    requires taken.Then? && taken.step.TakeSnapshot? && Place(later, taken).Some?
    ensures var p := Place(later, taken).value;
            0 <= p < |Current(later).snapshots| && Current(later).snapshots[p] == Current(taken.before).lastSequence
    decreases later
  {
    if later == taken {
      HeldAreCounted(taken);
    } else {
      HeldSnapshot(later.before, taken);
      StillPlaced(Current(later.before), later.step, Place(later.before, taken).value);
    }
  }

  lemma {:induction false} StillPlaced(db: DB, step: Step, p: nat)
    requires Enabled(db, step) && p < |db.snapshots| && !(step.ReleaseSnapshot? && step.index == p)
    ensures var q := if step.ReleaseSnapshot? && step.index < p then p - 1 else p;
            q < |After(db, step).snapshots| && After(db, step).snapshots[q] == db.snapshots[p]
  {}

  /** From the moment it is taken until its own release, a snapshot answers every read in the same way. */
  lemma {:induction false} HeldSnapshotIsStable(later: Run, taken: Run, user: int)
    requires IsRun(later) && IsRun(taken) && Extends(later, taken) && AllGuarded(later)
    requires taken.Then? && taken.step.TakeSnapshot? && Place(later, taken).Some?
    ensures var s := Current(taken.before).lastSequence;
            && ReadAt(AllEntries(Current(later)), user, s) == ReadAt(AllEntries(Current(taken)), user, s)
            && s <= |AllOps(later)|
            && ReadAt(AllEntries(Current(later)), user, s) == LastWrite(AllOps(later)[..s], user)
  {
    HeldSnapshot(later, taken);
    SnapshotsAreStable(taken, later, user, Current(taken.before).lastSequence);
    ReadsAreLastWrites(later, user, Current(taken.before).lastSequence);
  }
}
