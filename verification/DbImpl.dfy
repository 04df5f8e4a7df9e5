/**
  The store's operations as its code runs them (db/db_impl.cc): each method performs exactly one
  step of the step system in Store.dfy.
 */
module DbImpl {
  import opened Wrappers
  import opened DbFormat
  import opened Versions
  import opened Inputs
  import opened SetupInputs
  import opened CompactionWork
  import opened CompactionLoop
  import opened Builder
  import opened VersionSteps
  import opened Store
  import opened StoreRuns

  // ----- sorted runs of entries -----

  /** Insertion into a memtable, in internal key order. */
  function InsertEntry(s: seq<Entry>, e: Entry): (r: seq<Entry>)
    ensures forall x :: x in r <==> x in s || x == e
  {
    if s == [] || Less(e.key, s[0].key) then [e] + s
    else
      assert s == [s[0]] + s[1..];
      [s[0]] + InsertEntry(s[1..], e)
  }

  ghost predicate KeyApart(e: Entry, s: seq<Entry>) {
    forall x :: x in s ==> Less(e.key, x.key) || Less(x.key, e.key)
  }

  lemma {:induction false} ConsSorted(e: Entry, s: seq<Entry>)
    requires Sorted(s) && forall x :: x in s ==> Less(e.key, x.key)
    ensures Sorted([e] + s)
  {
    assert forall j :: 0 <= j < |s| ==> s[j] in s;
  }

  lemma {:induction false} SortedTail(s: seq<Entry>)
    requires Sorted(s) && s != []
    ensures Sorted(s[1..]) && forall x :: x in s[1..] ==> x in s && Less(s[0].key, x.key)
  {
    forall x | x in s[1..]
      ensures x in s && Less(s[0].key, x.key)
    {
      var j :| 0 <= j < |s[1..]| && s[1..][j] == x;
      assert s[j + 1] == x;
    }
  }

  lemma {:induction false} InsertSorted(s: seq<Entry>, e: Entry)
    requires Sorted(s) && KeyApart(e, s)
    ensures Sorted(InsertEntry(s, e))
  {
    if s != [] {
      SortedTail(s);
      assert s[0] in s;
      if Less(e.key, s[0].key) {
        ConsSorted(e, s);
      } else {
        InsertSorted(s[1..], e);
        ConsSorted(s[0], InsertEntry(s[1..], e));
      }
    }
  }

  /** Merging two sorted runs, as the compaction's input iterator does. */
  function MergeRuns(a: seq<Entry>, b: seq<Entry>): (r: seq<Entry>)
    ensures forall x :: x in r <==> x in a || x in b
    decreases |a| + |b|
  {
    if a == [] then b
    else if b == [] then a
    else if Less(b[0].key, a[0].key) then
      assert b == [b[0]] + b[1..];
      [b[0]] + MergeRuns(a, b[1..])
    else
      assert a == [a[0]] + a[1..];
      [a[0]] + MergeRuns(a[1..], b)
  }

  lemma {:induction false} MergeRunsSorted(a: seq<Entry>, b: seq<Entry>)
    requires Sorted(a) && Sorted(b) && forall x :: x in a ==> KeyApart(x, b)
    ensures Sorted(MergeRuns(a, b))
    decreases |a| + |b|
  {
    if a != [] && b != [] {
      SortedTail(a);
      SortedTail(b);
      assert a[0] in a && b[0] in b;
      if Less(b[0].key, a[0].key) {
        MergeRunsSorted(a, b[1..]);
        ConsSorted(b[0], MergeRuns(a, b[1..]));
      } else {
        MergeRunsSorted(a[1..], b);
        ConsSorted(a[0], MergeRuns(a[1..], b));
      }
    }
  }

  /** The files of a compaction never share an internal key. */
  ghost predicate FilesKeyApart(files: seq<File>) {
    forall i, j, x :: 0 <= i < j < |files| && x in files[i].entries ==> KeyApart(x, files[j].entries)
  }

  lemma {:induction false} EntriesAppend(files: seq<File>, f: File)
    ensures Entries(files + [f]) == Entries(files) + FileEntries(f)
  {
    forall e
      ensures e in Entries(files + [f]) <==> e in Entries(files) + FileEntries(f)
    {
      if g :| g in files && e in g.entries {
        assert g in files + [f];
      } else if e in f.entries {
        assert f in files + [f];
      }
    }
  }

  lemma {:induction false} EntriesConcat(a: seq<File>, b: seq<File>)
    ensures Entries(a + b) == Entries(a) + Entries(b)
  {
    forall e
      ensures e in Entries(a + b) <==> e in Entries(a) + Entries(b)
    {
      if g :| (g in a || g in b) && e in g.entries {
        assert g in a + b;
      }
    }
  }

  method MakeInput(files: seq<File>) returns (input: seq<Entry>)
    requires FilesOk(files) && FilesKeyApart(files)
    ensures Sorted(input) && SetOf(input) == Entries(files)
  {
    input := [];
    for i := 0 to |files|
      invariant Sorted(input) && SetOf(input) == Entries(files[..i])
    {
      assert files[i] in files;
      forall x | x in input
        ensures KeyApart(x, files[i].entries)
      {
        assert x in Entries(files[..i]);
        var f :| f in files[..i] && x in f.entries;
        var j :| 0 <= j < i && files[j] == f;
      }
      MergeRunsSorted(input, files[i].entries);
      input := MergeRuns(input, files[i].entries);
      EntriesAppend(files[..i], files[i]);
      assert files[..i + 1] == files[..i] + [files[i]];
    }
    assert files[..|files|] == files;
  }

  lemma {:induction false} InputsKeyApart(v: Version, nextFile: nat, level: nat, in0: seq<File>, in1: seq<File>)
    requires LevelsOk(v, nextFile) && Unique(VersionEntries(v)) && Chosen(v, level, in0, in1)
    ensures FilesOk(in0 + in1) && FilesKeyApart(in0 + in1)
  {
    ParentsDistinct(v, nextFile, level, in0);
    forall f | f in in0 + in1
      ensures FileOk(f)
    {
      assert f in in0 ==> In(v, level, f);
      assert f in in1 ==> In(v, level + 1, f);
    }
    forall i, j, x, y | 0 <= i < j < |in0 + in1| && x in (in0 + in1)[i].entries && y in (in0 + in1)[j].entries
      ensures Less(x.key, y.key) || Less(y.key, x.key)
    {
      PairKeysApart(v, nextFile, level, in0, in1, i, j, x, y);
    }
  }

  lemma {:induction false} ParentsDistinct(v: Version, nextFile: nat, level: nat, in0: seq<File>)
    requires LevelsOk(v, nextFile) && level + 1 < NUM_LEVELS && in0 != []
    ensures Distinct(Overlapping(v[level + 1], Hull(in0)))
  {
    LevelsVersion(v, nextFile);
    LevelDistinct(v[level + 1]);
    OverlappingOrder(v[level + 1], Hull(in0));
  }

  lemma {:induction false} PairKeysApart(v: Version, nextFile: nat, level: nat, in0: seq<File>, in1: seq<File>,
                                         i: nat, j: nat, x: Entry, y: Entry)
    requires LevelsOk(v, nextFile) && Unique(VersionEntries(v)) && Chosen(v, level, in0, in1) && Distinct(in1)
    requires i < j < |in0 + in1| && x in (in0 + in1)[i].entries && y in (in0 + in1)[j].entries
    ensures Less(x.key, y.key) || Less(y.key, x.key)
  {
    var f, g := (in0 + in1)[i], (in0 + in1)[j];
    var l, m := if i < |in0| then level else level + 1, if j < |in0| then level else level + 1;
    assert In(v, l, f) && In(v, m, g);
    VersionEntry(v, x);
    VersionEntry(v, y);
    if x == y {
      NoSharedEntry(v, nextFile, l, f, m, g, x);
    }
  }

  /** The level a compaction works on, and the manual range if it was asked for. */
  datatype Request = Automatic(level: nat, file: File) | Manual(level: nat, range: Range)

  ghost predicate RequestOk(v: Version, request: Request) {
    && |v| == NUM_LEVELS && request.level + 1 < NUM_LEVELS
    && match request
       case Automatic(level, file) => file in v[level]
       case Manual(level, range) => range.lo.Some? && range.hi.Some? ==> range.lo.value <= range.hi.value
  }

  /** What a request starts from. */
  ghost predicate PickedFor(v: Version, request: Request, limit: nat, picked: seq<File>)
    requires request.level < |v|
  {
    match request
    case Automatic(level, file) => IsPickFor(v[level], level, file, picked)
    case Manual(level, range) => IsPickForRange(v[level], level, range, limit, picked)
  }

  /** Whether a request finds nothing to compact. */
  ghost predicate Untouching(v: Version, request: Request)
    requires request.level < |v|
  {
    request.Manual? && forall f :: f in v[request.level] ==> !Overlaps(f, request.range)
  }

  /** The inputs that a request leads to: its files, closed, with their parents, and perhaps grown. */
  ghost predicate InputsFor(v: Version, request: Request, limit: nat, expandedLimit: nat, in0: seq<File>,
                            in1: seq<File>)
    requires request.level + 1 < |v|
  {
    exists picked ::
      PickedFor(v, request, limit, picked) && LeadsTo(v, request.level, picked, expandedLimit, in0, in1)
  }

  /** A file that goes down as it is: alone, without parents, and not over too much of the level beyond. */
  ghost predicate Trivial(v: Version, request: Request, in0: seq<File>, in1: seq<File>, maxGrandparentBytes: nat)
    requires |v| == NUM_LEVELS && in0 != []
  {
    && request.Automatic? && |in0| == 1 && in1 == []
    && TotalFileSize(BeyondParents(v, request.level, in0, in1)) <= maxGrandparentBytes
  }

  /** The step moves or compacts these inputs. */
  ghost predicate StepFor(v: Version, request: Request, maxGrandparentBytes: nat, in0: seq<File>, in1: seq<File>,
                          step: Step)
    requires |v| == NUM_LEVELS && in0 != []
  {
    if Trivial(v, request, in0, in1, maxGrandparentBytes) then step == Step.Move(request.level, in0[0])
    else step.Compact? && step.level == request.level && step.in0 == in0 && step.in1 == in1
  }

  lemma {:induction false} ServesIs(v: Version, request: Request, limit: nat, expandedLimit: nat,
                                    maxGrandparentBytes: nat, in0: seq<File>, in1: seq<File>, step: Step)
    requires |v| == NUM_LEVELS && request.level + 1 < NUM_LEVELS && in0 != []
    requires InputsFor(v, request, limit, expandedLimit, in0, in1)
    requires StepFor(v, request, maxGrandparentBytes, in0, in1, step)
    ensures Serves(v, request, limit, expandedLimit, maxGrandparentBytes, step)
  {
    if Trivial(v, request, in0, in1, maxGrandparentBytes) {
      assert in0 == [in0[0]];
    }
  }

  /** The step moves or compacts the inputs that the request leads to. */
  ghost predicate Serves(v: Version, request: Request, limit: nat, expandedLimit: nat, maxGrandparentBytes: nat,
                         step: Step)
    requires |v| == NUM_LEVELS && request.level + 1 < NUM_LEVELS
  {
    match step
    case Move(level, f) =>
      && level == request.level && InputsFor(v, request, limit, expandedLimit, [f], [])
      && Trivial(v, request, [f], [], maxGrandparentBytes)
    case Compact(level, in0, in1, _, _) =>
      && level == request.level && InputsFor(v, request, limit, expandedLimit, in0, in1)
      && in0 != [] && !Trivial(v, request, in0, in1, maxGrandparentBytes)
    case _ => false
  }

  /** PickCompaction or CompactRange, and SetupOtherInputs. */
  method ChooseInputs(ghost db: DB, v: Version, request: Request, limit: nat, expandedLimit: nat)
    returns (in0: seq<File>, in1: seq<File>, grandparents: seq<File>)
    requires DbOk(db) && db.version == v && RequestOk(v, request)
    ensures in0 == [] <==> Untouching(v, request)
    ensures in0 != [] ==> Chosen(v, request.level, in0, in1)
    ensures in0 != [] ==> InputsFor(v, request, limit, expandedLimit, in0, in1)
    ensures in0 != [] ==> grandparents == BeyondParents(v, request.level, in0, in1)
  {
    LevelsVersion(v, db.nextFile);
    UniqueSubset(VersionEntries(v), AllEntries(db));
    in0, in1, grandparents := ChooseFrom(v, request, limit, expandedLimit);
  }

  method ChooseFrom(v: Version, request: Request, limit: nat, expandedLimit: nat)
    returns (in0: seq<File>, in1: seq<File>, grandparents: seq<File>)
    requires VersionOk(v) && Unique(VersionEntries(v)) && RequestOk(v, request)
    ensures in0 == [] <==> Untouching(v, request)
    ensures in0 != [] ==> Chosen(v, request.level, in0, in1)
    ensures in0 != [] ==> InputsFor(v, request, limit, expandedLimit, in0, in1)
    ensures in0 != [] ==> grandparents == BeyondParents(v, request.level, in0, in1)
  {
    var picked := Pick(v, request, limit);
    if picked == [] {
      return [], [], [];
    }
    ghost var first;
    var pointer;
    in0, in1, grandparents, pointer, first := SetupOtherInputs(v, request.level, picked, expandedLimit);
  }

  method Pick(v: Version, request: Request, limit: nat) returns (picked: seq<File>)
    requires VersionOk(v) && RequestOk(v, request)
    ensures picked == [] <==> Untouching(v, request)
    ensures picked != [] ==> Selectable(v, request.level, picked) && PickedFor(v, request, limit, picked)
  {
    match request
    case Automatic(level, file) =>
      picked := PickFrom(v, level, file);
    case Manual(level, range) =>
      picked := CompactRange(v, level, range, limit);
  }

  /** The merged input of a compaction and what DoCompactionWork makes of it. */
  method CompactFiles(ghost db: DB, c: Compaction, in0: seq<File>, in1: seq<File>, snapshot: nat,
                      tableSize: seq<Entry> -> nat, nextFile: nat)
    returns (ghost input: seq<Entry>, outputs: seq<File>)
    requires DbOk(db) && db.version == c.version && db.nextFile == nextFile && SmallestSnapshot(db) == snapshot
    requires c.Valid() && c.asked == None && !c.seenKey && c.grandparentIndex == 0
    requires Chosen(c.version, c.level, in0, in1)
    modifies c, c.levelPtrs
    ensures CompactionOk(db, c.level, in0, in1, input, outputs)
  {
    UniqueSubset(VersionEntries(c.version), AllEntries(db));
    InputsKeyApart(c.version, nextFile, c.level, in0, in1);
    EntriesConcat(in0, in1);
    var merged := MakeInput(in0 + in1);
    InputSequences(in0 + in1, merged);
    SnapshotIsPast(db);
    outputs := DoCompactionWork(c, merged, snapshot, tableSize, nextFile);
    input := merged;
  }

  lemma {:induction false} SnapshotIsPast(db: DB)
    requires DbOk(db)
    ensures SmallestSnapshot(db) < MAX_SEQUENCE
  {}

  class DBImpl {
    const tableSize: seq<Entry> -> nat
    const maxFileSize: nat
    /** The memtables, in internal key order. */
    var mem: seq<Entry>
    var imm: Option<seq<Entry>>
    var version: Version
    var lastSequence: nat
    var snapshots: seq<nat>
    var nextFile: nat

    ghost function State(): DB
      reads this
    {
      DB(SetOf(mem), if imm.Some? then Some(SetOf(imm.value)) else None, version, lastSequence, snapshots, nextFile)
    }

    ghost predicate Valid()
      reads this
    {
      Sorted(mem) && (imm.Some? ==> Sorted(imm.value)) && DbOk(State())
    }

    constructor (tableSize: seq<Entry> -> nat, maxFileSize: nat)
      ensures Valid() && State() == Fresh()
    {
      this.tableSize, this.maxFileSize := tableSize, maxFileSize;
      mem, imm, lastSequence, snapshots, nextFile := [], None, 0, [], 2;
      version := seq(NUM_LEVELS, _ => []);
      new;
      assert version == Fresh().version;
      assert State() == Fresh();
      FreshOk();
    }

    /** MemTable::Get: the first entry at or after the lookup key, if it has the right user key. */
    method SearchMemTable(table: seq<Entry>, user: int, snapshot: nat) returns (found: Option<Entry>)
      requires Sorted(table) && Unique(SetOf(table))
      ensures found == Newest(SetOf(table), user, snapshot)
    {
      var i := SeekIndex(table, SeekKey(user, snapshot));
      MemTableNewest(table, user, snapshot);
      if i < |table| && table[i].key.user == user {
        return Some(table[i]);
      }
      return None;
    }

    /** DBImpl::Get: memtable, then immutable memtable, then the version. */
    method Get(user: int, snapshot: nat) returns (value: Option<Bytes>)
      requires Valid()
      ensures value == ReadAt(AllEntries(State()), user, snapshot)
    {
      ghost var db := State();
      UniqueSubset(db.mem, AllEntries(db));
      UniqueSubset(Frozen(db), AllEntries(db));
      UniqueSubset(VersionEntries(version), AllEntries(db));
      LevelsVersion(version, nextFile);
      LayeredRead(db, user, snapshot);
      var found := SearchMemTable(mem, user, snapshot);
      if found.None? && imm.Some? {
        found := SearchMemTable(imm.value, user, snapshot);
      }
      if found.Some? {
        return Answer(found);
      }
      assert imm.None? ==> Newest(Frozen(db), user, snapshot).None?;
      var saver := Versions.Get(version, user, snapshot);
      return if saver.Found? then Some(saver.value) else None;
    }

    /** Inserts a batch with consecutive sequence numbers, then publishes the last one. */
    method Write(ops: seq<Op>)
      requires Valid() && Enabled(State(), Step.Write(ops))
      modifies this
      ensures Valid() && State() == After(old(State()), Step.Write(ops))
    {
      ghost var db := State();
      WriteOk(db, Step.Write(ops));
      mem := InsertBatch(mem, ops, lastSequence);
      lastSequence := lastSequence + |ops|;
      assert State() == After(db, Step.Write(ops));
    }

    /** WriteBatchInternal::InsertInto a memtable. */
    method InsertBatch(table: seq<Entry>, ops: seq<Op>, last: nat) returns (r: seq<Entry>)
      requires Sorted(table) && forall x :: x in SetOf(table) ==> x.key.seqno <= last
      ensures Sorted(r) && SetOf(r) == SetOf(table) + BatchEntries(ops, last + 1)
    {
      r := table;
      for i := 0 to |ops|
        invariant Sorted(r) && SetOf(r) == SetOf(table) + BatchEntries(ops[..i], last + 1)
        invariant forall x :: x in SetOf(r) ==> x.key.seqno <= last + i
      {
        var e := Entry(IKey(ops[i].user, last + 1 + i, ops[i].kind), ops[i].value);
        BatchGrows(ops, i, last + 1);
        assert forall x :: x in r ==> x in SetOf(r);
        InsertSorted(r, e);
        assert SetOf(InsertEntry(r, e)) == SetOf(r) + {e};
        r := InsertEntry(r, e);
      }
      assert ops[..|ops|] == ops;
    }

    /** The memtable switch of MakeRoomForWrite. */
    method Rotate()
      requires Valid() && Enabled(State(), Step.Rotate)
      modifies this
      ensures Valid() && State() == After(old(State()), Step.Rotate)
    {
      RotateOk(State());
      mem, imm := [], Some(mem);
      assert SetOf([]) == {};
    }

    /** LogAndApply: a builder over the current version, one edit, saved. */
    method LogAndApply(edit: VersionEdit)
      requires LevelsOk(version, nextFile)
      modifies this`version
      ensures version == Install(old(version), edit)
    {
      var builder := new VersionBuilder(version);
      builder.Apply(edit);
      var v := builder.SaveTo();
      assert v == Install(version, edit);
      version := v;
    }

    /** CompactMemTable: nothing to write for an empty memtable, otherwise one new table file. */
    method CompactMemTable(maxGrandparentBytes: nat) returns (ghost step: Step)
      requires Valid() && imm.Some?
      modifies this
      ensures Enabled(old(State()), step) && (step.FlushEmpty? || step.Flush?)
      ensures step.Flush? ==> IsFlushLevel(old(version), FileUsers(step.file), maxGrandparentBytes, step.level)
      ensures Valid() && State() == After(old(State()), step)
    {
      if imm.value == [] {
        step := Step.FlushEmpty;
        assert SetOf([]) == {};
        FlushEmptyOk(State());
        imm := None;
      } else {
        var f := MakeFile(nextFile, imm.value, tableSize);
        assert FileEntries(f) == Frozen(State());
        assert forall e :: e in f.entries ==> e in AllEntries(State());
        FileEnds(f);
        LevelsVersion(version, nextFile);
        var level := PickLevelForMemTableOutput(version, f.smallest.user, f.largest.user, maxGrandparentBytes);
        step := Step.Flush(level, f);
        InstallFlush(level, f);
      }
    }

    method InstallFlush(level: nat, f: File)
      requires Valid() && Enabled(State(), Step.Flush(level, f))
      modifies this
      ensures Valid() && State() == After(old(State()), Step.Flush(level, f))
    {
      ghost var db := State();
      FlushStepOk(db, level, f);
      LogAndApply(FlushEdit(level, f));
      imm, nextFile := None, nextFile + 1;
      assert State() == After(db, Step.Flush(level, f));
    }

    /** A trivial move, installed. */
    method InstallMove(level: nat, f: File)
      requires Valid() && Enabled(State(), Step.Move(level, f))
      modifies this
      ensures Valid() && State() == After(old(State()), Step.Move(level, f))
    {
      MoveStepOk(State(), level, f);
      LogAndApply(MoveEdit(level, f));
    }

    /** DoCompactionWork on the chosen files, then InstallCompactionResults. */
    method CompactAndInstall(level: nat, in0: seq<File>, in1: seq<File>, grandparents: seq<File>,
                             maxGrandparentBytes: nat)
      returns (ghost step: Step)
      requires Valid() && Chosen(version, level, in0, in1)
      modifies this
      ensures step.Compact? && step.level == level && step.in0 == in0 && step.in1 == in1
      ensures Enabled(old(State()), step) && Valid() && State() == After(old(State()), step)
    {
      var input, outputs := CompactChosen(level, in0, in1, grandparents, maxGrandparentBytes);
      step := Step.Compact(level, in0, in1, input, outputs);
      InstallCompaction(level, in0, in1, outputs, step);
    }

    method CompactChosen(level: nat, in0: seq<File>, in1: seq<File>, grandparents: seq<File>, maxGrandparentBytes: nat)
      returns (ghost input: seq<Entry>, outputs: seq<File>)
      requires Valid() && Chosen(version, level, in0, in1)
      ensures CompactionOk(State(), level, in0, in1, input, outputs)
    {
      var snapshot := if snapshots == [] then lastSequence else snapshots[0];
      var compaction := new Compaction(version, level, grandparents, maxFileSize, maxGrandparentBytes)
        by { LevelsVersion(version, nextFile); }
      input, outputs := CompactFiles(State(), compaction, in0, in1, snapshot, tableSize, nextFile);
    }

    method InstallCompaction(level: nat, in0: seq<File>, in1: seq<File>, outputs: seq<File>, ghost step: Step)
      requires Valid() && step.Compact? && Enabled(State(), step)
      requires step.level == level && step.in0 == in0 && step.in1 == in1 && step.outputs == outputs
      modifies this
      ensures Valid() && State() == After(old(State()), step)
    {
      ghost var db := State();
      CompactStepOk(db, step);
      LogAndApply(CompactionEdit(level, in0, in1, outputs));
      nextFile := nextFile + |outputs|;
      assert State() == After(db, step);
    }

    /** BackgroundCompaction: the frozen memtable first; otherwise choose inputs, then move one file or merge all. */
    method BackgroundCompaction(request: Option<Request>, expandedLimit: nat, maxGrandparentBytes: nat)
        returns (ghost step: Option<Step>)
      requires Valid() && (request.Some? ==> RequestOk(version, request.value))
      modifies this
      ensures Valid()
      ensures step.None? <==> old(imm).None? && (request.None? || Untouching(old(version), request.value))
      ensures if step.None? then State() == old(State())
              else Enabled(old(State()), step.value) && State() == After(old(State()), step.value)
      ensures step.Some? ==> if old(imm).Some? then step.value.FlushEmpty? || step.value.Flush?
                             else Serves(old(version), request.value, maxFileSize, expandedLimit, maxGrandparentBytes,
                                         step.value)
    {
      if imm.Some? {
        ghost var flush := CompactMemTable(maxGrandparentBytes);
        return Some(flush);
      }
      if request.None? {
        return None;
      }
      step := CompactFor(request.value, expandedLimit, maxGrandparentBytes);
    }

    method CompactFor(request: Request, expandedLimit: nat, maxGrandparentBytes: nat) returns (ghost step: Option<Step>)
      requires Valid() && RequestOk(version, request)
      modifies this
      ensures Valid()
      ensures step.None? <==> Untouching(old(version), request)
      ensures if step.None? then State() == old(State())
              else Enabled(old(State()), step.value) && State() == After(old(State()), step.value)
      ensures step.Some? ==>
                Serves(old(version), request, maxFileSize, expandedLimit, maxGrandparentBytes, step.value)
    {
      var in0, in1, grandparents := ChooseInputs(State(), version, request, maxFileSize, expandedLimit);
      if in0 == [] {
        return None;
      }
      ghost var v := version;
      ghost var done := MoveOrCompact(request, in0, in1, grandparents, maxGrandparentBytes);
      ServesIs(v, request, maxFileSize, expandedLimit, maxGrandparentBytes, in0, in1, done);
      step := Some(done);
    }

    /** The step for chosen inputs: the trivial move if it is one, otherwise the compaction. */
    method MoveOrCompact(request: Request, in0: seq<File>, in1: seq<File>, grandparents: seq<File>,
                         maxGrandparentBytes: nat)
      returns (ghost step: Step)
      requires Valid() && RequestOk(version, request) && Chosen(version, request.level, in0, in1)
      requires grandparents == BeyondParents(version, request.level, in0, in1)
      modifies this
      ensures Valid() && Enabled(old(State()), step) && State() == After(old(State()), step)
      ensures StepFor(old(version), request, maxGrandparentBytes, in0, in1, step)
    {
      if request.Automatic? && |in0| == 1 && in1 == [] && TotalFileSize(grandparents) <= maxGrandparentBytes {
        var f := in0[0];
        assert in0 == [f];
        step := Step.Move(request.level, f);
        InstallMove(request.level, f);
      } else {
        step := CompactAndInstall(request.level, in0, in1, grandparents, maxGrandparentBytes);
      }
    }

    method TakeSnapshot() returns (s: nat)
      requires Valid()
      modifies this
      ensures Valid() && State() == After(old(State()), Step.TakeSnapshot) && s == lastSequence
      ensures snapshots == old(snapshots) + [s] && lastSequence == old(lastSequence)
    {
      TakeSnapshotOk(State());
      s := lastSequence;
      snapshots := snapshots + [s];
    }

    /** Gives back one of the snapshots held, wherever it is in their list. */
    method ReleaseSnapshot(i: nat)
      requires Valid() && i < |snapshots|
      modifies this
      ensures Valid() && State() == After(old(State()), Step.ReleaseSnapshot(i))
      ensures multiset(old(snapshots)) == multiset(snapshots) + multiset{old(snapshots)[i]}
    {
      ReleaseSnapshotOk(State(), i);
      WithoutOne(snapshots, i);
      snapshots := snapshots[..i] + snapshots[i + 1..];
    }
  }

  lemma {:induction false} WithoutOne(s: seq<nat>, i: nat)
    requires i < |s|
    ensures multiset(s) == multiset(s[..i] + s[i + 1..]) + multiset{s[i]}
  {
    assert s == s[..i] + ([s[i]] + s[i + 1..]);
  }

  lemma {:induction false} InputSequences(files: seq<File>, input: seq<Entry>)
    requires FilesOk(files) && SetOf(input) == Entries(files)
    ensures forall e :: e in input ==> e.key.seqno <= MAX_SEQUENCE
  {
    forall e | e in input
      ensures e.key.seqno <= MAX_SEQUENCE
    {
      assert e in SetOf(input);
    }
  }

  lemma {:induction false} MemTableNewest(table: seq<Entry>, user: int, snapshot: nat)
    requires Sorted(table) && Unique(SetOf(table))
    ensures var i := SeekIndex(table, SeekKey(user, snapshot));
            Newest(SetOf(table), user, snapshot)
            == if i < |table| && table[i].key.user == user then Some(table[i]) else None
  {
    var n := SeekIndex(table, SeekKey(user, snapshot));
    forall e | e in table && Visible(e, user, snapshot)
      ensures n < |table| && table[n].key.user == user && Visible(table[n], user, snapshot)
      ensures n < |table| && table[n].key.seqno >= e.key.seqno
    {
      var i :| 0 <= i < |table| && table[i] == e;
      assert n <= i && (n == i || Less(table[n].key, table[i].key));
    }
    if n < |table| && table[n].key.user == user {
      assert IsNewest(SetOf(table), user, snapshot, table[n]);
      NewestIs(SetOf(table), user, snapshot, table[n]);
    } else {
      NewestNone(SetOf(table), user, snapshot);
    }
  }

  /** The first layer that answers holds the newest entry of all. */
  lemma {:induction false} LayeredRead(db: DB, user: int, s: nat)
    requires DbOk(db)
    ensures Newest(AllEntries(db), user, s)
            == if Newest(db.mem, user, s).Some? then Newest(db.mem, user, s)
               else if Newest(Frozen(db), user, s).Some? then Newest(Frozen(db), user, s)
               else Newest(VersionEntries(db.version), user, s)
  {
    UniqueSubset(db.mem + Frozen(db), AllEntries(db));
    TopLayer(db.mem, Frozen(db), user, s);
    TopLayer(db.mem + Frozen(db), VersionEntries(db.version), user, s);
  }

  lemma {:induction false} TopLayer(top: set<Entry>, below: set<Entry>, user: int, s: nat)
    requires Unique(top + below) && SetNewer(top, below)
    ensures Newest(top + below, user, s) ==
            if Newest(top, user, s).Some? then Newest(top, user, s) else Newest(below, user, s)
  {
    NewestExists(top, user, s);
    NewestExists(below, user, s);
    if Newest(top, user, s).Some? {
      var n := Newest(top, user, s).value;
      assert IsNewest(top, user, s, n);
      assert IsNewest(top + below, user, s, n);
      NewestIs(top + below, user, s, n);
    } else if Newest(below, user, s).Some? {
      var n := Newest(below, user, s).value;
      assert IsNewest(below, user, s, n);
      assert IsNewest(top + below, user, s, n);
      NewestIs(top + below, user, s, n);
    } else {
      NewestNone(top + below, user, s);
    }
  }

  lemma {:induction false} BatchGrows(ops: seq<Op>, i: nat, first: nat)
    requires i < |ops|
    ensures BatchEntries(ops[..i + 1], first)
            == BatchEntries(ops[..i], first) + {Entry(IKey(ops[i].user, first + i, ops[i].kind), ops[i].value)}
    ensures forall e :: e in BatchEntries(ops[..i], first) ==> first <= e.key.seqno < first + i
  {}
}
