/**
  The whole store as a step system: memtables, versions, snapshots, and what every reader sees over
  any run (db/db_impl.cc). Each background job is one atomic step.
 */
module Store {
  import opened Wrappers
  import opened DbFormat
  import opened Versions
  import opened Inputs
  import opened SetupInputs
  import opened CompactionWork
  import opened CompactionLoop
  import opened Builder
  import opened VersionSteps

  datatype DB = DB(mem: set<Entry>, imm: Option<set<Entry>>, version: Version, lastSequence: nat,
                   snapshots: seq<nat>, nextFile: nat)

  ghost function Frozen(db: DB): set<Entry> {
    if db.imm.Some? then db.imm.value else {}
  }

  /** Every entry the store holds anywhere. */
  ghost function AllEntries(db: DB): set<Entry> {
    db.mem + Frozen(db) + VersionEntries(db.version)
  }

  /** The snapshot below which a compaction may forget: the oldest held, or the present. */
  function SmallestSnapshot(db: DB): nat {
    if db.snapshots == [] then db.lastSequence else db.snapshots[0]
  }

  // ----- the steps -----

  ghost function BatchEntries(ops: seq<Op>, first: nat): set<Entry> {
    set i | 0 <= i < |ops| :: Entry(IKey(ops[i].user, first + i, ops[i].kind), ops[i].value)
  }

  datatype Step =
    | Write(ops: seq<Op>)
    | Rotate
    | FlushEmpty
    | Flush(level: nat, file: File)
    | Move(level: nat, file: File)
    | Compact(level: nat, in0: seq<File>, in1: seq<File>, input: seq<Entry>, outputs: seq<File>)
    | TakeSnapshot
    | ReleaseSnapshot(index: nat)

  /** The merged input of a compaction and the files DoCompactionWork makes of it. */
  ghost predicate CompactionOk(db: DB, level: nat, in0: seq<File>, in1: seq<File>, input: seq<Entry>,
                               outputs: seq<File>) {
    && Chosen(db.version, level, in0, in1)
    && Sorted(input) && SetOf(input) == Entries(in0) + Entries(in1)
    && OutputsOk(outputs, db.nextFile) && LevelSorted(outputs)
    && Concat(outputs) == Survivors(input, |input|, SmallestSnapshot(db), db.version, level)
  }

  ghost predicate Enabled(db: DB, step: Step) {
    match step
    case Write(ops) => db.lastSequence + |ops| < MAX_SEQUENCE
    case Rotate => db.imm.None?
    case FlushEmpty => db.imm == Some({})
    case Flush(level, f) =>
      && db.imm == Some(FileEntries(f)) && FileOk(f) && f.number == db.nextFile
      && level <= MAX_MEM_COMPACT_LEVEL && (level > 0 ==> NoOverlapThrough(db.version, level, FileUsers(f)))
    case Move(level, f) => Chosen(db.version, level, [f], [])
    case Compact(level, in0, in1, input, outputs) => CompactionOk(db, level, in0, in1, input, outputs)
    case TakeSnapshot => true
    case ReleaseSnapshot(i) => i < |db.snapshots|
  }

  ghost function After(db: DB, step: Step): DB
    requires Enabled(db, step)
  {
    match step
    case Write(ops) =>
      db.(mem := db.mem + BatchEntries(ops, db.lastSequence + 1), lastSequence := db.lastSequence + |ops|)
    case Rotate => db.(mem := {}, imm := Some(db.mem))
    case FlushEmpty => db.(imm := None)
    case Flush(level, f) =>
      db.(imm := None, version := Install(db.version, FlushEdit(level, f)), nextFile := db.nextFile + 1)
    case Move(level, f) => db.(version := Install(db.version, MoveEdit(level, f)))
    case Compact(level, in0, in1, input, outputs) =>
      db.(version := Install(db.version, CompactionEdit(level, in0, in1, outputs)), nextFile := db.nextFile + |outputs|)
    case TakeSnapshot => db.(snapshots := db.snapshots + [db.lastSequence])
    case ReleaseSnapshot(i) => db.(snapshots := db.snapshots[..i] + db.snapshots[i + 1..])
  }

  /** What a step adds to the history of writes. */
  ghost function Written(db: DB, step: Step): set<Entry> {
    if step.Write? then BatchEntries(step.ops, db.lastSequence + 1) else {}
  }

  /** The guard under which a step is invisible to readers: a compaction must expose nothing. */
  ghost predicate Guarded(db: DB, step: Step) {
    step.Compact? ==>
      var inputs := Entries(step.in0) + Entries(step.in1);
      NothingExposed(inputs, AllEntries(db) - inputs, SmallestSnapshot(db), db.version, step.level)
  }

  // ----- the invariant -----

  ghost predicate SetNewer(a: set<Entry>, b: set<Entry>) {
    forall x, y :: x in a && y in b && x.key.user == y.key.user ==> x.key.seqno > y.key.seqno
  }

  /** Memtables are newer than what they will be flushed onto, and all sequence numbers are past ones. */
  ghost predicate DbOk(db: DB) {
    && LevelsOk(db.version, db.nextFile)
    && Unique(AllEntries(db))
    && (forall e :: e in AllEntries(db) ==> e.key.seqno <= db.lastSequence)
    && db.lastSequence < MAX_SEQUENCE
    && SetNewer(db.mem, Frozen(db))
    && SetNewer(db.mem + Frozen(db), VersionEntries(db.version))
    && (forall i, j :: 0 <= i < j < |db.snapshots| ==> db.snapshots[i] <= db.snapshots[j])
    && (forall i :: 0 <= i < |db.snapshots| ==> db.snapshots[i] <= db.lastSequence)
  }

  /** The store and the history of all writes agree for every reader that may still exist. */
  ghost predicate Faithful(db: DB, history: set<Entry>) {
    && AllEntries(db) <= history && Unique(history)
    && (forall e :: e in history ==> e.key.seqno <= db.lastSequence)
    && SameReads(history, AllEntries(db), SmallestSnapshot(db))
  }

  function Fresh(): DB {
    DB({}, None, seq(NUM_LEVELS, _ => []), 0, [], 2)
  }

  // ----- what the steps do to the entries of the version -----

  ghost function Rest(v: Version, level: nat, in0: seq<File>, in1: seq<File>): set<Entry> {
    set l, f, e | 0 <= l < |v| && f in v[l] && Untouched(v, level, in0, in1, l, f) && e in f.entries :: e
  }

  lemma {:induction false} VersionEntry(v: Version, e: Entry)
    ensures e in VersionEntries(v) <==> exists l: nat, f :: In(v, l, f) && e in f.entries
  {
    if l: nat, f :| In(v, l, f) && e in f.entries {
      assert 0 <= l < |v| && f in v[l];
    }
    if e in VersionEntries(v) {
      var l, f :| 0 <= l < |v| && f in v[l] && e in f.entries;
      assert In(v, l, f);
    }
  }

  /** No entry is stored in two files. */
  lemma {:induction false} NoSharedEntry(v: Version, nextFile: nat, l: nat, f: File, m: nat, g: File, e: Entry)
    requires LevelsOk(v, nextFile) && In(v, l, f) && In(v, m, g) && e in f.entries && e in g.entries
    ensures l == m && f == g
  {
    assert PairOk(l, f, m, g) && PairOk(m, g, l, f);
    FileRange(f, e);
    FileRange(g, e);
  }

  lemma {:induction false} FlushEntries(v: Version, nextFile: nat, level: nat, f: File)
    requires LevelsOk(v, nextFile) && FlushOk(v, nextFile, level, f)
    ensures VersionEntries(Install(v, FlushEdit(level, f))) == VersionEntries(v) + FileEntries(f)
  {
    var w := Install(v, FlushEdit(level, f));
    forall l: nat, g | l < NUM_LEVELS
      ensures In(w, l, g) <==> In(v, l, g) || (l == level && g == f)
    {
      FlushMember(v, nextFile, level, f, l);
    }
    assert In(w, level, f);
    forall e
      ensures e in VersionEntries(w) <==> e in VersionEntries(v) + FileEntries(f)
    {
      VersionEntry(v, e);
      VersionEntry(w, e);
    }
  }

  lemma {:induction false} MoveEntries(v: Version, nextFile: nat, level: nat, f: File)
    requires LevelsOk(v, nextFile) && Chosen(v, level, [f], [])
    ensures VersionEntries(Install(v, MoveEdit(level, f))) == VersionEntries(v)
  {
    var w := Install(v, MoveEdit(level, f));
    assert f in [f] && In(v, level, f);
    forall l: nat, g | l < NUM_LEVELS
      ensures In(w, l, g) <==> if g == f then l == level + 1 else In(v, l, g)
    {
      MoveMember(v, nextFile, level, f, l);
    }
    assert In(w, level + 1, f);
    forall e
      ensures e in VersionEntries(w) <==> e in VersionEntries(v)
    {
      VersionEntry(v, e);
      VersionEntry(w, e);
    }
  }

  /** An entry of the inputs is stored in no untouched file. */
  lemma {:induction false} InputNotInRest(v: Version, nextFile: nat, level: nat, in0: seq<File>, in1: seq<File>,
                                          e: Entry)
    requires LevelsOk(v, nextFile) && Chosen(v, level, in0, in1)
    requires e in Entries(in0) || e in Entries(in1)
    ensures e in VersionEntries(v) && e !in Rest(v, level, in0, in1)
  {
    var m, h := Origin(v, level, in0, in1, e);
    VersionEntry(v, e);
    forall l: nat, f | Untouched(v, level, in0, in1, l, f) && e in f.entries
      ensures false
    {
      NoSharedEntry(v, nextFile, l, f, m, h, e);
    }
  }

  lemma {:induction false} RestIsUntouched(v: Version, level: nat, in0: seq<File>, in1: seq<File>, e: Entry)
    ensures e in Rest(v, level, in0, in1) <==> exists l: nat, f :: Untouched(v, level, in0, in1, l, f) && e in f.entries
  {
    if l: nat, f :| Untouched(v, level, in0, in1, l, f) && e in f.entries {
      assert 0 <= l < |v| && f in v[l];
    }
  }

  lemma {:induction false} RestSplits(v: Version, nextFile: nat, level: nat, in0: seq<File>, in1: seq<File>)
    requires LevelsOk(v, nextFile) && Chosen(v, level, in0, in1)
    ensures VersionEntries(v) == Rest(v, level, in0, in1) + (Entries(in0) + Entries(in1))
    ensures Rest(v, level, in0, in1) !! (Entries(in0) + Entries(in1))
  {
    forall e
      ensures e in VersionEntries(v) <==> e in Rest(v, level, in0, in1) + (Entries(in0) + Entries(in1))
      ensures !(e in Rest(v, level, in0, in1) && e in Entries(in0) + Entries(in1))
    {
      if e in Entries(in0) + Entries(in1) {
        InputNotInRest(v, nextFile, level, in0, in1, e);
      } else {
        VersionEntry(v, e);
        RestIsUntouched(v, level, in0, in1, e);
        assert forall l: nat, f :: In(v, l, f) && e in f.entries ==> Untouched(v, level, in0, in1, l, f);
      }
    }
  }

  lemma {:induction false} CompactionEntries(v: Version, nextFile: nat, level: nat, in0: seq<File>, in1: seq<File>,
                                             outputs: seq<File>)
    requires LevelsOk(v, nextFile) && Chosen(v, level, in0, in1) && OutputsFit(outputs, nextFile, in0, in1)
    ensures VersionEntries(Install(v, CompactionEdit(level, in0, in1, outputs))) ==
            Rest(v, level, in0, in1) + Entries(outputs)
  {
    var w := Install(v, CompactionEdit(level, in0, in1, outputs));
    forall l: nat, g | l < NUM_LEVELS
      ensures In(w, l, g) <==> Untouched(v, level, in0, in1, l, g) || (l == level + 1 && g in outputs)
    {
      CompactionMember(v, nextFile, level, in0, in1, outputs, l);
    }
    forall e
      ensures e in VersionEntries(w) <==> e in Rest(v, level, in0, in1) + Entries(outputs)
    {
      VersionEntry(w, e);
      if g :| g in outputs && e in g.entries {
        assert In(w, level + 1, g);
      }
      if e in Rest(v, level, in0, in1) {
        var l, f :| 0 <= l < |v| && f in v[l] && Untouched(v, level, in0, in1, l, f) && e in f.entries;
        assert In(w, l, f);
      }
    }
  }
}
