/**
  Every step of the store keeps its invariant and its readers' answers, so over any run every held
  snapshot reads exactly what was written up to it (db/db_impl.cc).
 */
module StoreRuns {
  import opened DbFormat
  import opened Versions
  import opened CompactionWork
  import opened CompactionLoop
  import opened VersionSteps
  import opened Store

  // ----- writes -----

  lemma {:induction false} BatchNewest(ops: seq<Op>, first: nat)
    ensures Unique(BatchEntries(ops, first))
    ensures forall e :: e in BatchEntries(ops, first) ==> first <= e.key.seqno < first + |ops|
  {}

  /** Adding strictly newer entries changes a read in the same way whatever they are added to. */
  lemma {:induction false} AddNewer(a: set<Entry>, batch: set<Entry>, last: nat, user: int, s: nat)
    requires Unique(a + batch) && (forall e :: e in a ==> e.key.seqno <= last)
    requires forall e :: e in batch ==> e.key.seqno > last
    ensures Newest(a + batch, user, s)
            == if Newest(batch, user, s).Some? then Newest(batch, user, s) else Newest(a, user, s)
  {
    NewestExists(batch, user, s);
    NewestExists(a, user, s);
    UniqueSubset(a, a + batch);
    UniqueSubset(batch, a + batch);
    if Newest(batch, user, s).Some? {
      var n := Newest(batch, user, s).value;
      assert IsNewest(batch, user, s, n);
      assert IsNewest(a + batch, user, s, n);
      NewestIs(a + batch, user, s, n);
    } else if Newest(a, user, s).Some? {
      var n := Newest(a, user, s).value;
      assert IsNewest(a, user, s, n);
      assert IsNewest(a + batch, user, s, n);
      NewestIs(a + batch, user, s, n);
    } else {
      NewestNone(a + batch, user, s);
    }
  }

  lemma {:induction false} UniqueUnion(a: set<Entry>, batch: set<Entry>, last: nat)
    requires Unique(a) && Unique(batch)
    requires (forall e :: e in a ==> e.key.seqno <= last) && (forall e :: e in batch ==> e.key.seqno > last)
    ensures Unique(a + batch)
  {}

  lemma {:induction false} WriteOk(db: DB, step: Step)
    requires DbOk(db) && step.Write? && Enabled(db, step)
    ensures DbOk(After(db, step)) && AllEntries(After(db, step)) == AllEntries(db) + Written(db, step)
  {
    BatchNewest(step.ops, db.lastSequence + 1);
    UniqueUnion(AllEntries(db), Written(db, step), db.lastSequence);
    assert AllEntries(After(db, step)) == AllEntries(db) + Written(db, step);
  }

  lemma {:induction false} AddBatch(a: set<Entry>, b: set<Entry>, batch: set<Entry>, last: nat, snapshot: nat)
    requires Unique(a) && Unique(batch) && b <= a && SameReads(a, b, snapshot)
    requires (forall e :: e in a ==> e.key.seqno <= last) && (forall e :: e in batch ==> e.key.seqno > last)
    ensures Unique(a + batch) && SameReads(a + batch, b + batch, snapshot)
  {
    UniqueUnion(a, batch, last);
    UniqueSubset(b + batch, a + batch);
    forall user, s | s >= snapshot
      ensures ReadAt(a + batch, user, s) == ReadAt(b + batch, user, s)
    {
      assert ReadAt(a, user, s) == ReadAt(b, user, s);
      AddNewer(a, batch, last, user, s);
      AddNewer(b, batch, last, user, s);
    }
  }

  lemma {:induction false} WriteFaithful(db: DB, step: Step, history: set<Entry>, extended: set<Entry>)
    requires DbOk(db) && step.Write? && Enabled(db, step) && Faithful(db, history)
    requires extended == history + Written(db, step)
    ensures Faithful(After(db, step), extended)
  {
    BatchNewest(step.ops, db.lastSequence + 1);
    WriteOk(db, step);
    AddBatch(history, AllEntries(db), Written(db, step), db.lastSequence, SmallestSnapshot(db));
  }

  // ----- memtables and snapshots -----

  lemma {:induction false} RotateOk(db: DB)
    requires DbOk(db) && Enabled(db, Rotate)
    ensures DbOk(After(db, Rotate)) && AllEntries(After(db, Rotate)) == AllEntries(db)
  {
    assert AllEntries(After(db, Rotate)) == AllEntries(db);
    assert {} + db.mem == db.mem + {};
  }

  lemma {:induction false} FlushEmptyOk(db: DB)
    requires DbOk(db) && Enabled(db, FlushEmpty)
    ensures DbOk(After(db, FlushEmpty)) && AllEntries(After(db, FlushEmpty)) == AllEntries(db)
  {}

  /** The frozen memtable is newer than every file. */
  lemma {:induction false} FlushIsOk(db: DB, level: nat, f: File)
    requires DbOk(db) && Enabled(db, Flush(level, f))
    ensures FlushOk(db.version, db.nextFile, level, f)
  {
    forall l: nat, g | In(db.version, l, g)
      ensures FileNewer(f, g)
    {
      forall x, y | x in f.entries && y in g.entries && x.key.user == y.key.user
        ensures x.key.seqno > y.key.seqno
      {
        VersionEntry(db.version, y);
        assert x in db.mem + Frozen(db);
      }
    }
  }

  lemma {:induction false} FlushStepOk(db: DB, level: nat, f: File)
    requires DbOk(db) && Enabled(db, Flush(level, f))
    ensures DbOk(After(db, Flush(level, f))) && AllEntries(After(db, Flush(level, f))) == AllEntries(db)
  {
    FlushIsOk(db, level, f);
    FlushKeepsOrder(db.version, db.nextFile, level, f);
    FlushEntries(db.version, db.nextFile, level, f);
    assert AllEntries(After(db, Flush(level, f))) == AllEntries(db);
  }

  lemma {:induction false} MoveStepOk(db: DB, level: nat, f: File)
    requires DbOk(db) && Enabled(db, Move(level, f))
    ensures DbOk(After(db, Move(level, f))) && AllEntries(After(db, Move(level, f))) == AllEntries(db)
  {
    MoveKeepsOrder(db.version, db.nextFile, level, f);
    MoveEntries(db.version, db.nextFile, level, f);
  }

  lemma {:induction false} TakeSnapshotOk(db: DB)
    requires DbOk(db)
    ensures DbOk(After(db, TakeSnapshot)) && AllEntries(After(db, TakeSnapshot)) == AllEntries(db)
    ensures SmallestSnapshot(After(db, TakeSnapshot)) == SmallestSnapshot(db)
  {}

  lemma {:induction false} ReleaseSnapshotOk(db: DB, i: nat)
    requires DbOk(db) && Enabled(db, ReleaseSnapshot(i))
    ensures DbOk(After(db, ReleaseSnapshot(i))) && AllEntries(After(db, ReleaseSnapshot(i))) == AllEntries(db)
    ensures SmallestSnapshot(After(db, ReleaseSnapshot(i))) >= SmallestSnapshot(db)
  {}

  // ----- compactions -----

  ghost function KeptBy(db: DB, step: Step): set<Entry>
    requires step.Compact?
  {
    Kept(step.input, SmallestSnapshot(db), db.version, step.level)
  }

  lemma {:induction false} OutputsFitInputs(db: DB, step: Step)
    requires step.Compact? && Enabled(db, step)
    ensures OutputsFit(step.outputs, db.nextFile, step.in0, step.in1)
    ensures Entries(step.outputs) == KeptBy(db, step)
  {
    forall e
      ensures e in Entries(step.outputs) <==> e in KeptBy(db, step)
    {
      ConcatMember(step.outputs, e);
    }
    KeptIsInput(step.input, SmallestSnapshot(db), db.version, step.level);
    forall o, e | o in step.outputs && e in o.entries
      ensures e in Entries(step.in0) || e in Entries(step.in1)
    {
      assert e in Entries(step.outputs);
      assert e in SetOf(step.input);
    }
  }

  lemma {:induction false} MemtablesApart(db: DB)
    requires DbOk(db)
    ensures db.mem + Frozen(db) !! VersionEntries(db.version)
  {
    forall e, y | e in db.mem + Frozen(db) && y in VersionEntries(db.version)
      ensures y != e
    {
      assert e.key.user == y.key.user ==> e.key.seqno > y.key.seqno;
    }
  }

  lemma {:induction false} CompactParts(db: DB, step: Step)
    requires LevelsOk(db.version, db.nextFile) && step.Compact? && Enabled(db, step)
    ensures var rest := Rest(db.version, step.level, step.in0, step.in1);
            && VersionEntries(db.version) == rest + SetOf(step.input)
            && rest !! SetOf(step.input)
            && VersionEntries(After(db, step).version) == rest + KeptBy(db, step)
  {
    OutputsFitInputs(db, step);
    RestSplits(db.version, db.nextFile, step.level, step.in0, step.in1);
    CompactionEntries(db.version, db.nextFile, step.level, step.in0, step.in1, step.outputs);
  }

  /** The store's entries before and after a compaction, as the compaction theorem wants them. */
  lemma {:induction false} CompactSets(db: DB, step: Step)
    requires DbOk(db) && step.Compact? && Enabled(db, step)
    ensures var rest := AllEntries(db) - SetOf(step.input);
            && AllEntries(db) == SetOf(step.input) + rest
            && AllEntries(After(db, step)) == KeptBy(db, step) + rest
            && VersionEntries(After(db, step).version) <= VersionEntries(db.version)
  {
    MemtablesApart(db);
    CompactParts(db, step);
    KeptIsInput(step.input, SmallestSnapshot(db), db.version, step.level);
    SetAlgebra(db.mem + Frozen(db), Rest(db.version, step.level, step.in0, step.in1), SetOf(step.input),
               KeptBy(db, step));
  }

  lemma {:induction false} SetAlgebra(memtables: set<Entry>, rest: set<Entry>, inputs: set<Entry>, kept: set<Entry>)
    requires rest !! inputs && memtables !! rest + inputs && kept <= inputs
    ensures var all := memtables + (rest + inputs);
            && all == inputs + (all - inputs)
            && memtables + (rest + kept) == kept + (all - inputs)
            && rest + kept <= rest + inputs
  {}

  lemma {:induction false} CompactStepOk(db: DB, step: Step)
    requires DbOk(db) && step.Compact? && Enabled(db, step)
    ensures DbOk(After(db, step)) && AllEntries(After(db, step)) <= AllEntries(db)
  {
    OutputsFitInputs(db, step);
    CompactionKeepsOrder(db.version, db.nextFile, step.level, step.in0, step.in1, step.outputs);
    CompactSets(db, step);
    KeptIsInput(step.input, SmallestSnapshot(db), db.version, step.level);
    UniqueSubset(AllEntries(After(db, step)), AllEntries(db));
  }

  /** A compaction changes no reader's answer if and only if it is guarded. */
  lemma {:induction false} CompactReads(db: DB, step: Step)
    requires DbOk(db) && step.Compact? && Enabled(db, step)
    ensures SameReads(AllEntries(db), AllEntries(After(db, step)), SmallestSnapshot(db)) <==> Guarded(db, step)
  {
    CompactSets(db, step);
    CompactionExact(step.input, AllEntries(db) - SetOf(step.input), SmallestSnapshot(db), db.version, step.level);
  }

  // ----- any step -----

  lemma {:induction false} StepOk(db: DB, step: Step)
    requires DbOk(db) && Enabled(db, step)
    ensures DbOk(After(db, step))
  {
    match step
    case Write(_) => WriteOk(db, step);
    case Rotate => RotateOk(db);
    case FlushEmpty => FlushEmptyOk(db);
    case Flush(level, f) => FlushStepOk(db, level, f);
    case Move(level, f) => MoveStepOk(db, level, f);
    case Compact(_, _, _, _, _) => CompactStepOk(db, step);
    case TakeSnapshot => TakeSnapshotOk(db);
    case ReleaseSnapshot(i) => ReleaseSnapshotOk(db, i);
  }

  /** All steps but a write and a compaction leave the stored entries alone. */
  lemma {:induction false} QuietStep(db: DB, step: Step)
    requires DbOk(db) && Enabled(db, step) && !step.Write? && !step.Compact?
    ensures AllEntries(After(db, step)) == AllEntries(db)
    ensures SmallestSnapshot(After(db, step)) >= SmallestSnapshot(db)
    ensures After(db, step).lastSequence == db.lastSequence
  {
    match step
    case Rotate => RotateOk(db);
    case FlushEmpty => FlushEmptyOk(db);
    case Flush(level, f) => FlushStepOk(db, level, f);
    case Move(level, f) => MoveStepOk(db, level, f);
    case TakeSnapshot => TakeSnapshotOk(db);
    case ReleaseSnapshot(i) => ReleaseSnapshotOk(db, i);
  }

  lemma {:induction false} CompactFaithful(db: DB, step: Step, history: set<Entry>)
    requires DbOk(db) && step.Compact? && Enabled(db, step) && Guarded(db, step) && Faithful(db, history)
    ensures Faithful(After(db, step), history)
  {
    CompactStepOk(db, step);
    CompactReads(db, step);
    forall user, s | s >= SmallestSnapshot(db)
      ensures ReadAt(history, user, s) == ReadAt(AllEntries(After(db, step)), user, s)
    {
      assert ReadAt(history, user, s) == ReadAt(AllEntries(db), user, s);
    }
  }

  lemma {:induction false} QuietFaithful(db: DB, step: Step, history: set<Entry>)
    requires DbOk(db) && Enabled(db, step) && !step.Write? && !step.Compact? && Faithful(db, history)
    ensures Faithful(After(db, step), history)
  {
    QuietStep(db, step);
  }

  /** A guarded step keeps every reader's answers in line with the history, extended by what it writes. */
  lemma {:induction false} StepFaithful(db: DB, step: Step, history: set<Entry>, extended: set<Entry>)
    requires DbOk(db) && Enabled(db, step) && Guarded(db, step) && Faithful(db, history)
    requires extended == history + Written(db, step)
    ensures Faithful(After(db, step), extended)
  {
    if step.Write? {
      WriteFaithful(db, step, history, extended);
    } else {
      assert extended == history;
      if step.Compact? {
        CompactFaithful(db, step, history);
      } else {
        QuietFaithful(db, step, history);
      }
    }
  }

  lemma {:induction false} StepGrows(db: DB, step: Step)
    requires Enabled(db, step)
    ensures db.lastSequence <= After(db, step).lastSequence
    ensures forall e :: e in Written(db, step) ==> e.key.seqno > db.lastSequence
  {
    if step.Write? {
      BatchNewest(step.ops, db.lastSequence + 1);
    }
  }

  // ----- runs -----

  datatype Run = Start | Then(before: Run, step: Step)

  /** Any steps the code may take, whatever its compactions drop. */
  ghost predicate IsRun(run: Run)
    decreases run, 0
  {
    match run
    case Start => true
    case Then(before, step) => IsRun(before) && Enabled(Current(before), step)
  }

  ghost function Current(run: Run): DB
    requires IsRun(run)
    decreases run, 1
  {
    match run
    case Start => Fresh()
    case Then(before, step) => After(Current(before), step)
  }

  /** Everything ever written in a run. */
  ghost function History(run: Run): set<Entry>
    requires IsRun(run)
    decreases run
  {
    match run
    case Start => {}
    case Then(before, step) => History(before) + Written(Current(before), step)
  }

  /** Every compaction of the run met its guard. */
  ghost predicate AllGuarded(run: Run)
    requires IsRun(run)
    decreases run
  {
    run.Then? ==> AllGuarded(run.before) && Guarded(Current(run.before), run.step)
  }

  lemma {:induction false} FreshOk()
    ensures DbOk(Fresh()) && AllEntries(Fresh()) == {}
  {
    assert VersionEntries(Fresh().version) == {};
    assert AllEntries(Fresh()) == {};
  }

  /** The invariant holds after any run, guarded or not. */
  lemma {:induction false} RunOk(run: Run)
    requires IsRun(run)
    ensures DbOk(Current(run))
    decreases run
  {
    match run
    case Start => FreshOk();
    case Then(before, step) =>
      RunOk(before);
      StepOk(Current(before), step);
  }

  lemma {:induction false} RunFaithful(run: Run)
    requires IsRun(run) && AllGuarded(run)
    ensures Faithful(Current(run), History(run))
    decreases run
  {
    match run
    case Start => FreshOk();
    case Then(before, step) =>
      RunOk(before);
      RunFaithful(before);
      StepFaithful(Current(before), step, History(before), History(run));
  }

  /** The snapshots a reader of the current state can use. */
  predicate Readable(db: DB, s: nat) {
    s in db.snapshots || s == db.lastSequence
  }

  /** Every readable snapshot reads what the full history of writes says. */
  ghost predicate Truthful(run: Run)
    requires IsRun(run)
  {
    forall user, s :: Readable(Current(run), s) ==>
      ReadAt(AllEntries(Current(run)), user, s) == ReadAt(History(run), user, s)
  }

  /** And so it was at every moment of the run. */
  ghost predicate ReadsItsHistory(run: Run)
    requires IsRun(run)
    decreases run
  {
    Truthful(run) && (run.Then? ==> ReadsItsHistory(run.before))
  }

  lemma {:induction false} GuardedIsTruthful(run: Run)
    requires IsRun(run) && AllGuarded(run)
    ensures Truthful(run)
  {
    RunOk(run);
    RunFaithful(run);
    var db := Current(run);
    forall user, s | Readable(db, s)
      ensures ReadAt(AllEntries(db), user, s) == ReadAt(History(run), user, s)
    {
      SmallestIsSmallest(db, s);
    }
  }

  lemma {:induction false} SmallestIsSmallest(db: DB, s: nat)
    requires DbOk(db)
    ensures Readable(db, SmallestSnapshot(db))
    ensures Readable(db, s) ==> SmallestSnapshot(db) <= s
  {
    if i :| 0 <= i < |db.snapshots| && db.snapshots[i] == s {
      assert db.snapshots[0] <= s;
    }
  }

  /** An unguarded compaction changes an answer at the oldest snapshot that can still be read. */
  lemma {:induction false} UnguardedIsSeen(db: DB, step: Step) returns (user: int)
    requires DbOk(db) && step.Compact? && Enabled(db, step) && !Guarded(db, step)
    ensures ReadAt(AllEntries(db), user, SmallestSnapshot(db))
            != ReadAt(AllEntries(After(db, step)), user, SmallestSnapshot(db))
  {
    CompactSets(db, step);
    user := ExposedIsSeen(step.input, AllEntries(db) - SetOf(step.input), SmallestSnapshot(db), db.version, step.level);
  }

  lemma {:induction false} CompactionQuiet(db: DB, step: Step)
    requires Enabled(db, step) && step.Compact?
    ensures After(db, step).snapshots == db.snapshots && After(db, step).lastSequence == db.lastSequence
    ensures Written(db, step) == {}
  {}

  lemma {:induction false} RunUnguarded(run: Run) returns (user: int, s: nat)
    requires IsRun(run) && run.Then? && !Guarded(Current(run.before), run.step)
    ensures Readable(Current(run.before), s) && Readable(Current(run), s) && History(run) == History(run.before)
    ensures ReadAt(AllEntries(Current(run.before)), user, s) != ReadAt(AllEntries(Current(run)), user, s)
  {
    var db := Current(run.before);
    RunOk(run.before);
    s := SmallestSnapshot(db);
    user := UnguardedIsSeen(db, run.step);
    CompactionQuiet(db, run.step);
    SmallestIsSmallest(db, 0);
  }

  /**
    Over any run of the code, readers at every readable snapshot see at every moment what was written,
    if and only if every compaction of the run met its guard.
   */
  lemma {:induction false} EveryRunReadsItsHistory(run: Run)
    requires IsRun(run)
    ensures ReadsItsHistory(run) <==> AllGuarded(run)
    decreases run
  {
    if run.Then? {
      EveryRunReadsItsHistory(run.before);
    }
    if AllGuarded(run) {
      GuardedIsTruthful(run);
    } else if AllGuarded(run.before) {
      UnguardedLies(run);
    }
  }

  lemma {:induction false} TruthAt(run: Run, user: int, s: nat)
    requires IsRun(run) && Readable(Current(run), s)
    ensures Truthful(run) ==> ReadAt(AllEntries(Current(run)), user, s) == ReadAt(History(run), user, s)
  {}

  /** No run is truthful both before and after an unguarded compaction. */
  lemma {:induction false} UnguardedLies(run: Run)
    requires IsRun(run) && run.Then? && !Guarded(Current(run.before), run.step)
    ensures !(Truthful(run) && Truthful(run.before))
  {
    var user, s := RunUnguarded(run);
    TruthAt(run.before, user, s);
    TruthAt(run, user, s);
  }

  /** `later` continues `run`. */
  ghost predicate Extends(later: Run, run: Run)
    decreases later
  {
    later == run || (later.Then? && Extends(later.before, run))
  }

  lemma {:induction false} LaterWritesAreNewer(later: Run, run: Run)
    requires IsRun(later) && IsRun(run) && Extends(later, run)
    ensures History(run) <= History(later)
    ensures Current(run).lastSequence <= Current(later).lastSequence
    ensures forall e :: e in History(later) && e !in History(run) ==> e.key.seqno > Current(run).lastSequence
    ensures AllGuarded(later) ==> AllGuarded(run)
    decreases later
  {
    if later != run {
      LaterWritesAreNewer(later.before, run);
      StepGrows(Current(later.before), later.step);
    }
  }

  /** A snapshot keeps its answers for as long as it is held, whatever guarded steps the store takes. */
  lemma {:induction false} SnapshotsAreStable(run: Run, later: Run, user: int, s: nat)
    requires IsRun(later) && IsRun(run) && Extends(later, run) && AllGuarded(later)
    requires s == Current(run).lastSequence && Readable(Current(later), s)
    ensures ReadAt(AllEntries(Current(later)), user, s) == ReadAt(AllEntries(Current(run)), user, s)
  {
    LaterWritesAreNewer(later, run);
    GuardedIsTruthful(run);
    GuardedIsTruthful(later);
    RunFaithful(run);
    RunFaithful(later);
    HistoriesAgree(History(run), History(later), user, s);
  }

  /** Writes after a snapshot do not change what the history says at it. */
  lemma {:induction false} HistoriesAgree(early: set<Entry>, late: set<Entry>, user: int, s: nat)
    requires Unique(early) && Unique(late) && early <= late
    requires forall e :: e in late && e !in early ==> e.key.seqno > s
    ensures ReadAt(early, user, s) == ReadAt(late, user, s)
  {
    NewestExists(early, user, s);
    NewestExists(late, user, s);
    if Newest(early, user, s).Some? {
      var n := Newest(early, user, s).value;
      assert IsNewest(early, user, s, n);
      assert IsNewest(late, user, s, n);
      NewestIs(late, user, s, n);
    }
  }
}
