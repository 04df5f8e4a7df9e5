/**
  A run of the store that does not read its own history: SetupOtherInputs adds boundary files for the
  compacted level but not for its parents (db/version_set.cc), so a deletion marker can be dropped while
  an older value of the same user key stays behind in the next parent file.

  Key 2 is written, a snapshot is taken, and key 2 is deleted.  A compaction by hand, while the snapshot
  is held, keeps both entries and cuts its output between them.  Once the snapshot is gone, a second
  compaction, of a file that holds only key 1, takes the first of the two parents and drops the marker.
 */
module Resurrection {
  import opened Wrappers
  import opened DbFormat
  import opened Versions
  import opened Inputs
  import opened SetupInputs
  import opened CompactionWork
  import opened CompactionLoop
  import opened Builder
  import opened VersionSteps
  import opened Store
  import opened StoreRuns

  const OLD_ONE := Entry(IKey(1, 1, Value), [67])
  const OLD_TWO := Entry(IKey(2, 2, Value), [65])
  const MARKER := Entry(IKey(2, 3, Deletion), [])
  const NEW_ONE := Entry(IKey(1, 4, Value), [66])

  /** The first flushed memtable, and the two files that its compaction cuts it into. */
  const WHOLE := File(2, 1, OLD_ONE.key, OLD_TWO.key, [OLD_ONE, MARKER, OLD_TWO])
  const PARENT := File(3, 1, OLD_ONE.key, MARKER.key, [OLD_ONE, MARKER])
  const NEIGHBOUR := File(4, 1, OLD_TWO.key, OLD_TWO.key, [OLD_TWO])

  /** The second flushed memtable, and what its compaction leaves of it and of the parent. */
  const CHILD := File(5, 1, NEW_ONE.key, NEW_ONE.key, [NEW_ONE])
  const OUTPUT := File(6, 1, NEW_ONE.key, NEW_ONE.key, [NEW_ONE])

  const EMPTY: Version := [[], [], [], [], [], [], []]
  const FLUSHED: Version := [[], [], [WHOLE], [], [], [], []]
  const CUT: Version := [[], [], [], [PARENT, NEIGHBOUR], [], [], []]
  const READY: Version := [[], [], [CHILD], [PARENT, NEIGHBOUR], [], [], []]

  const WRITE_BOTH := Step.Write([Op(1, Value, [67]), Op(2, Value, [65])])
  const DELETE_TWO := Step.Write([Op(2, Deletion, [])])
  const WRITE_ONE := Step.Write([Op(1, Value, [66])])
  const FLUSH_BOTH := Step.Flush(2, WHOLE)
  const CUT_IN_TWO := Step.Compact(2, [WHOLE], [], WHOLE.entries, [PARENT, NEIGHBOUR])
  const FLUSH_ONE := Step.Flush(2, CHILD)
  const MERGED: seq<Entry> := [NEW_ONE, OLD_ONE, MARKER]
  const DROP_MARKER := Step.Compact(2, [CHILD], [PARENT], MERGED, [OUTPUT])

  // ----- the states of the run -----

  const WITH_BOTH := DB({OLD_ONE, OLD_TWO}, None, EMPTY, 2, [], 2)
  const WITH_SNAPSHOT := DB({OLD_ONE, OLD_TWO}, None, EMPTY, 2, [2], 2)
  const WITH_MARKER := DB({OLD_ONE, OLD_TWO, MARKER}, None, EMPTY, 3, [2], 2)
  const FROZEN := DB({}, Some({OLD_ONE, OLD_TWO, MARKER}), EMPTY, 3, [2], 2)
  const IN_ONE_FILE := DB({}, None, FLUSHED, 3, [2], 3)
  const IN_TWO_FILES := DB({}, None, CUT, 3, [2], 5)
  const NO_SNAPSHOT := DB({}, None, CUT, 3, [], 5)
  const WITH_ONE := DB({NEW_ONE}, None, CUT, 4, [], 5)
  const FROZEN_ONE := DB({}, Some({NEW_ONE}), CUT, 4, [], 5)
  const BEFORE := DB({}, None, READY, 4, [], 6)

  lemma {:induction false} Files()
    ensures FileOk(WHOLE) && FileOk(PARENT) && FileOk(NEIGHBOUR) && FileOk(CHILD) && FileOk(OUTPUT)
  {}

  lemma {:induction false} SameVersion(w: Version, v: Version)
    requires |w| == |v| && forall l :: 0 <= l < |v| ==> Strict(w[l]) && Strict(v[l])
    requires forall l: nat, g :: l < |v| ==> (In(w, l, g) <==> In(v, l, g))
    ensures w == v
  {
    forall l | 0 <= l < |v|
      ensures w[l] == v[l]
    {
      assert forall f :: f in w[l] <==> In(w, l, f);
      assert forall f :: f in v[l] <==> In(v, l, f);
      StrictUnique(w[l], v[l]);
    }
  }

  /** What is where, in each version of the run. */
  lemma {:induction false} Members()
    ensures forall l: nat, g :: !In(EMPTY, l, g)
    ensures forall l: nat, g :: In(FLUSHED, l, g) <==> l == 2 && g == WHOLE
    ensures forall l: nat, g :: In(CUT, l, g) <==> l == 3 && (g == PARENT || g == NEIGHBOUR)
    ensures forall l: nat, g :: In(READY, l, g) <==>
              (l == 2 && g == CHILD) || (l == 3 && (g == PARENT || g == NEIGHBOUR))
  {
    forall l: nat, g
      ensures !In(EMPTY, l, g)
      ensures In(FLUSHED, l, g) <==> l == 2 && g == WHOLE
    {
      assert l < 7 ==> l == 0 || l == 1 || l == 2 || l == 3 || l == 4 || l == 5 || l == 6;
    }
    forall l: nat, g
      ensures In(CUT, l, g) <==> l == 3 && (g == PARENT || g == NEIGHBOUR)
      ensures In(READY, l, g) <==> (l == 2 && g == CHILD) || (l == 3 && (g == PARENT || g == NEIGHBOUR))
    {
      assert l < 7 ==> l == 0 || l == 1 || l == 2 || l == 3 || l == 4 || l == 5 || l == 6;
    }
  }

  lemma {:induction false} AllStrict()
    ensures forall l :: 0 <= l < 7 ==> Strict(EMPTY[l]) && Strict(FLUSHED[l]) && Strict(CUT[l]) && Strict(READY[l])
  {
    assert BySmallest(PARENT, NEIGHBOUR);
    forall l | 0 <= l < 7
      ensures Strict(EMPTY[l]) && Strict(FLUSHED[l]) && Strict(CUT[l]) && Strict(READY[l])
    {
      assert l == 0 || l == 1 || l == 2 || l == 3 || l == 4 || l == 5 || l == 6;
    }
  }

  // ----- each step -----

  lemma {:induction false} Batches()
    ensures BatchEntries(WRITE_BOTH.ops, 1) == {OLD_ONE, OLD_TWO}
    ensures BatchEntries(DELETE_TWO.ops, 3) == {MARKER} && BatchEntries(WRITE_ONE.ops, 4) == {NEW_ONE}
  {
    var a, b, c := WRITE_BOTH.ops, DELETE_TWO.ops, WRITE_ONE.ops;
    assert forall e :: e in BatchEntries(a, 1) <==>
      exists i :: 0 <= i < |a| && e == Entry(IKey(a[i].user, 1 + i, a[i].kind), a[i].value);
    assert OLD_ONE == Entry(IKey(a[0].user, 1 + 0, a[0].kind), a[0].value);
    assert OLD_TWO == Entry(IKey(a[1].user, 1 + 1, a[1].kind), a[1].value);
    assert MARKER == Entry(IKey(b[0].user, 3 + 0, b[0].kind), b[0].value);
    assert NEW_ONE == Entry(IKey(c[0].user, 4 + 0, c[0].kind), c[0].value);
  }

  lemma {:induction false} WritesAre()
    ensures Enabled(Fresh(), WRITE_BOTH) && After(Fresh(), WRITE_BOTH) == WITH_BOTH
    ensures Enabled(WITH_BOTH, TakeSnapshot) && After(WITH_BOTH, TakeSnapshot) == WITH_SNAPSHOT
    ensures Enabled(WITH_SNAPSHOT, DELETE_TWO) && After(WITH_SNAPSHOT, DELETE_TWO) == WITH_MARKER
    ensures Enabled(WITH_MARKER, Rotate) && After(WITH_MARKER, Rotate) == FROZEN
  {
    Batches();
    assert Fresh().version == EMPTY;
    assert {} + {OLD_ONE, OLD_TWO} == {OLD_ONE, OLD_TWO};
    assert {OLD_ONE, OLD_TWO} + {MARKER} == {OLD_ONE, OLD_TWO, MARKER};
  }

  ghost predicate AllInOrder(v: Version) {
    |v| == NUM_LEVELS && forall l :: 0 <= l < NUM_LEVELS ==> Strict(v[l])
  }

  lemma {:induction false} FlushGives(from: Version, nextFile: nat, level: nat, f: File, v: Version)
    requires LevelsOk(from, nextFile) && FlushOk(from, nextFile, level, f) && AllInOrder(v)
    requires forall l: nat, g :: In(v, l, g) <==> In(from, l, g) || (l == level && g == f)
    ensures Install(from, FlushEdit(level, f)) == v
  {
    var w := Install(from, FlushEdit(level, f));
    forall l: nat | l < NUM_LEVELS
      ensures Strict(w[l]) && forall g :: In(w, l, g) <==> In(v, l, g)
    {
      FlushMember(from, nextFile, level, f, l);
    }
    SameVersion(w, v);
  }

  lemma {:induction false} CompactGives(from: Version, nextFile: nat, level: nat, in0: seq<File>, in1: seq<File>,
                                        outputs: seq<File>, v: Version)
    requires LevelsOk(from, nextFile) && Chosen(from, level, in0, in1) && OutputsFit(outputs, nextFile, in0, in1)
    requires AllInOrder(v)
    requires forall l: nat, g :: In(v, l, g) <==>
               Untouched(from, level, in0, in1, l, g) || (l == level + 1 && g in outputs)
    ensures Install(from, CompactionEdit(level, in0, in1, outputs)) == v
  {
    var w := Install(from, CompactionEdit(level, in0, in1, outputs));
    forall l: nat | l < NUM_LEVELS
      ensures Strict(w[l]) && forall g :: In(w, l, g) <==> In(v, l, g)
    {
      CompactionMember(from, nextFile, level, in0, in1, outputs, l);
    }
    SameVersion(w, v);
  }

  lemma {:induction false} FlushBothEnabled()
    ensures Enabled(FROZEN, FLUSH_BOTH)
  {
    Files();
    assert FileEntries(WHOLE) == {OLD_ONE, OLD_TWO, MARKER};
  }

  lemma {:induction false} FlushOneEnabled()
    ensures Enabled(FROZEN_ONE, FLUSH_ONE)
  {
    Files();
    assert FileEntries(CHILD) == {NEW_ONE};
    assert CUT[0] == [] && CUT[1] == [] && CUT[2] == [];
    assert forall l :: 0 <= l <= 2 ==> CUT[l] == [];
  }

  lemma {:induction false} FlushBothIs()
    requires DbOk(FROZEN)
    ensures Enabled(FROZEN, FLUSH_BOTH) && After(FROZEN, FLUSH_BOTH) == IN_ONE_FILE
  {
    FlushBothEnabled();
    Members();
    AllStrict();
    FlushIsOk(FROZEN, 2, WHOLE);
    FlushGives(EMPTY, 2, 2, WHOLE, FLUSHED);
  }

  lemma {:induction false} FlushOneIs()
    requires DbOk(FROZEN_ONE)
    ensures Enabled(FROZEN_ONE, FLUSH_ONE) && After(FROZEN_ONE, FLUSH_ONE) == BEFORE
  {
    FlushOneEnabled();
    Members();
    AllStrict();
    FlushIsOk(FROZEN_ONE, 2, CHILD);
    FlushGives(CUT, 5, 2, CHILD, READY);
  }

  lemma {:induction false} CutChosen()
    ensures Chosen(FLUSHED, 2, [WHOLE], [])
  {
    assert FLUSHED[2] == [WHOLE] && FLUSHED[3] == [];
    assert Overlapping([], Hull([WHOLE])) == [];
  }

  lemma {:induction false} CutKeepsAll()
    ensures Survivors(WHOLE.entries, 3, 2, FLUSHED, 2) == WHOLE.entries
  {
    var input, v := WHOLE.entries, FLUSHED;
    assert !Dropped(input, 0, 2, v, 2) && !Dropped(input, 1, 2, v, 2) && !Dropped(input, 2, 2, v, 2);
    assert Survivors(input, 0, 2, v, 2) == [];
    assert Survivors(input, 1, 2, v, 2) == [OLD_ONE];
    assert Survivors(input, 2, 2, v, 2) == [OLD_ONE, MARKER];
  }

  lemma {:induction false} CutEnabled()
    ensures Enabled(IN_ONE_FILE, CUT_IN_TWO)
  {
    Files();
    CutChosen();
    CutKeepsAll();
    assert SetOf(WHOLE.entries) == Entries([WHOLE]) + Entries([]) by {
      assert WHOLE in [WHOLE];
    }
    assert [PARENT, NEIGHBOUR][..1] == [PARENT] && [PARENT][..0] == [] && Concat([]) == [];
    assert Concat([PARENT]) == PARENT.entries;
    assert Concat([PARENT, NEIGHBOUR]) == WHOLE.entries;
  }

  lemma {:induction false} CutIs()
    requires DbOk(IN_ONE_FILE)
    ensures Enabled(IN_ONE_FILE, CUT_IN_TWO) && After(IN_ONE_FILE, CUT_IN_TWO) == IN_TWO_FILES
  {
    CutEnabled();
    OutputsFitInputs(IN_ONE_FILE, CUT_IN_TWO);
    Members();
    AllStrict();
    CompactGives(FLUSHED, 3, 2, [WHOLE], [], [PARENT, NEIGHBOUR], CUT);
  }

  lemma {:induction false} WritesAgain()
    ensures Enabled(IN_TWO_FILES, ReleaseSnapshot(0)) && After(IN_TWO_FILES, ReleaseSnapshot(0)) == NO_SNAPSHOT
    ensures Enabled(NO_SNAPSHOT, WRITE_ONE) && After(NO_SNAPSHOT, WRITE_ONE) == WITH_ONE
    ensures Enabled(WITH_ONE, Rotate) && After(WITH_ONE, Rotate) == FROZEN_ONE
  {
    Batches();
    assert {} + {NEW_ONE} == {NEW_ONE};
  }

  // ----- the run -----

  const TO_FROZEN := Then(Then(Then(Then(Start, WRITE_BOTH), TakeSnapshot), DELETE_TWO), Rotate)
  const TO_ONE_FILE := Then(TO_FROZEN, FLUSH_BOTH)
  const TO_FROZEN_ONE :=
    Then(Then(Then(Then(TO_ONE_FILE, CUT_IN_TWO), ReleaseSnapshot(0)), WRITE_ONE), Rotate)
  const RUN := Then(TO_FROZEN_ONE, FLUSH_ONE)

  lemma {:induction false} RunToFrozen()
    ensures IsRun(TO_FROZEN) && Current(TO_FROZEN) == FROZEN
  {
    WritesAre();
    assert IsRun(Then(Start, WRITE_BOTH)) && Current(Then(Start, WRITE_BOTH)) == WITH_BOTH;
    var r2 := Then(Then(Start, WRITE_BOTH), TakeSnapshot);
    assert IsRun(r2) && Current(r2) == WITH_SNAPSHOT;
    assert IsRun(Then(r2, DELETE_TWO)) && Current(Then(r2, DELETE_TWO)) == WITH_MARKER;
  }

  lemma {:induction false} RunToOneFile()
    ensures IsRun(TO_ONE_FILE) && Current(TO_ONE_FILE) == IN_ONE_FILE
  {
    RunToFrozen();
    RunOk(TO_FROZEN);
    FlushBothIs();
  }

  lemma {:induction false} RunToFrozenOne()
    ensures IsRun(TO_FROZEN_ONE) && Current(TO_FROZEN_ONE) == FROZEN_ONE
  {
    RunToOneFile();
    RunOk(TO_ONE_FILE);
    CutIs();
    WritesAgain();
    var r1 := Then(TO_ONE_FILE, CUT_IN_TWO);
    assert IsRun(r1) && Current(r1) == IN_TWO_FILES;
    var r2 := Then(r1, ReleaseSnapshot(0));
    assert IsRun(r2) && Current(r2) == NO_SNAPSHOT;
    assert IsRun(Then(r2, WRITE_ONE)) && Current(Then(r2, WRITE_ONE)) == WITH_ONE;
  }

  lemma {:induction false} RunToBefore()
    ensures IsRun(RUN) && Current(RUN) == BEFORE
  {
    RunToFrozenOne();
    RunOk(TO_FROZEN_ONE);
    FlushOneIs();
  }

  // ----- the compaction that drops the marker -----

  lemma {:induction false} BeforeEntries()
    ensures AllEntries(BEFORE) == {NEW_ONE, OLD_ONE, MARKER, OLD_TWO}
  {
    Members();
    forall e
      ensures e in VersionEntries(READY) <==> e in {NEW_ONE, OLD_ONE, MARKER, OLD_TWO}
    {
      VersionEntry(READY, e);
      assert In(READY, 2, CHILD) && In(READY, 3, PARENT) && In(READY, 3, NEIGHBOUR);
    }
  }

  lemma {:induction false} MergedEntries()
    ensures Entries([CHILD]) + Entries([PARENT]) == SetOf(MERGED) == {NEW_ONE, OLD_ONE, MARKER}
  {
    assert MERGED == CHILD.entries + PARENT.entries;
    assert CHILD in [CHILD] && PARENT in [PARENT];
    forall e
      ensures e in Entries([CHILD]) + Entries([PARENT]) <==> e in SetOf(MERGED)
    {
      assert e in MERGED <==> e in CHILD.entries || e in PARENT.entries;
    }
  }

  lemma {:induction false} DropChosen()
    ensures Chosen(READY, 2, [CHILD], [PARENT])
  {
    var r := Hull([CHILD]);
    assert r == Range(Some(1), Some(1));
    assert [PARENT, NEIGHBOUR][..1] == [PARENT] && [PARENT][..0] == [];
    assert Overlapping([], r) == [];
    assert Overlapping([PARENT], r) == [PARENT];
    assert Overlapping([PARENT, NEIGHBOUR], r) == [PARENT];
    assert READY[2] == [CHILD] && READY[3] == [PARENT, NEIGHBOUR];
  }

  lemma {:induction false} DropSurvivors()
    ensures Survivors(MERGED, 3, 4, READY, 2) == [NEW_ONE]
  {
    var v := READY;
    assert v[4] == [] && v[5] == [] && v[6] == [];
    assert BaseLevel(v, 2, 2);
    assert MERGED[0].key.user == MERGED[1].key.user && Hidden(MERGED, 1, 4);
    assert !Dropped(MERGED, 0, 4, v, 2) && Dropped(MERGED, 1, 4, v, 2) && Dropped(MERGED, 2, 4, v, 2);
    assert Survivors(MERGED, 0, 4, v, 2) == [];
    assert Survivors(MERGED, 1, 4, v, 2) == [NEW_ONE];
    assert Survivors(MERGED, 2, 4, v, 2) == [NEW_ONE];
  }

  lemma {:induction false} OutputIs()
    ensures OutputsOk([OUTPUT], 6) && LevelSorted([OUTPUT]) && Concat([OUTPUT]) == [NEW_ONE]
  {
    Files();
    assert [OUTPUT][..0] == [] && Concat([]) == [];
  }

  lemma {:induction false} CompactEnabled(db: DB, in0: seq<File>, in1: seq<File>, input: seq<Entry>, outputs: seq<File>)
    requires Chosen(db.version, 2, in0, in1) && Sorted(input) && SetOf(input) == Entries(in0) + Entries(in1)
    requires OutputsOk(outputs, db.nextFile) && LevelSorted(outputs)
    requires Concat(outputs) == Survivors(input, |input|, SmallestSnapshot(db), db.version, 2)
    ensures Enabled(db, Step.Compact(2, in0, in1, input, outputs))
  {}

  lemma {:induction false} MergedSorted()
    ensures Sorted(MERGED) && |MERGED| == 3 && SmallestSnapshot(BEFORE) == 4
    ensures BEFORE.version == READY && BEFORE.nextFile == 6
  {}

  lemma {:induction false} DropEnabled()
    ensures Enabled(BEFORE, DROP_MARKER)
  {
    DropChosen();
    DropSurvivors();
    MergedEntries();
    OutputIs();
    MergedSorted();
    CompactEnabled(BEFORE, [CHILD], [PARENT], MERGED, [OUTPUT]);
  }

  lemma {:induction false} GuardFails(all: set<Entry>, inputs: set<Entry>)
    requires all == {NEW_ONE, OLD_ONE, MARKER, OLD_TWO} && inputs == {NEW_ONE, OLD_ONE, MARKER}
    ensures inputs + (all - inputs) == all
    ensures Newest(all, 2, 4) == Some(MARKER) && Newest(all - inputs, 2, 4) == Some(OLD_TWO)
    ensures Obsolete(MARKER, 4, READY, 2) && Exposed(inputs, all - inputs, 4, READY, 2, 2)
  {
    assert READY[4] == [] && READY[5] == [] && READY[6] == [];
    assert inputs + (all - inputs) == all;
    assert IsNewest(all, 2, 4, MARKER);
    NewestIs(all, 2, 4, MARKER);
    assert all - inputs == {OLD_TWO};
    assert IsNewest(all - inputs, 2, 4, OLD_TWO);
    NewestIs(all - inputs, 2, 4, OLD_TWO);
  }

  lemma {:induction false} DropReads()
    requires DbOk(BEFORE) && Enabled(BEFORE, DROP_MARKER)
    ensures !Guarded(BEFORE, DROP_MARKER) && ReadAt(AllEntries(BEFORE), 2, 4) == None
    ensures ReadAt(AllEntries(After(BEFORE, DROP_MARKER)), 2, 4) == Some([65])
  {
    BeforeEntries();
    MergedEntries();
    GuardFails(AllEntries(BEFORE), SetOf(MERGED));
    CompactSets(BEFORE, DROP_MARKER);
    NewestAfter(MERGED, AllEntries(BEFORE) - SetOf(MERGED), 4, READY, 2, 2, 4);
  }

  /**
    A run of the code, one compaction more that the code may do, and a deleted user key that reads as
    its old value afterwards.
   */
  lemma {:induction false} DeletedKeyComesBack()
    ensures IsRun(Then(RUN, DROP_MARKER)) && !AllGuarded(Then(RUN, DROP_MARKER))
    ensures ReadAt(AllEntries(Current(RUN)), 2, 4) == None
    ensures ReadAt(AllEntries(Current(Then(RUN, DROP_MARKER))), 2, 4) == Some([65])
  {
    RunToBefore();
    DropEnabled();
    DropReads() by {
      RunOk(RUN);
    }
  }
}
