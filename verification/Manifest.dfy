/**
  Recovery from the manifest: the edits that a run of the store has logged, replayed into one builder,
  give the version the run ended with (db/version_set.cc).
 */
module Manifest {
  import opened DbFormat
  import opened Versions
  import opened Builder
  import opened VersionSteps
  import opened Store
  import opened StoreRuns

  /** What a step appends to the manifest. */
  function EditOf(step: Step): seq<VersionEdit> {
    match step
    case Flush(level, f) => [FlushEdit(level, f)]
    case Move(level, f) => [MoveEdit(level, f)]
    case Compact(level, in0, in1, _, outputs) => [CompactionEdit(level, in0, in1, outputs)]
    case _ => []
  }

  function EditsOf(run: Run): seq<VersionEdit> {
    match run
    case Start => []
    case Then(before, step) => EditsOf(before) + EditOf(step)
  }

  // ----- replaying one edit more -----

  /** The builder's levels after some edits. */
  function Folded(levels: seq<LevelState>, edits: seq<VersionEdit>): (r: seq<LevelState>)
    ensures |r| == |levels|
    decreases |edits|
  {
    if edits == [] then levels else Folded(ApplyTo(levels, edits[0]), edits[1..])
  }

  lemma {:induction false} ReplayFolds(base: Version, levels: seq<LevelState>, edits: seq<VersionEdit>)
    requires |levels| == |base|
    ensures ReplayOnce(base, levels, edits) == Save(base, Folded(levels, edits))
    decreases |edits|
  {
    if edits != [] {
      ReplayFolds(base, ApplyTo(levels, edits[0]), edits[1..]);
    }
  }

  lemma {:induction false} OneMore(base: Version, levels: seq<LevelState>, edits: seq<VersionEdit>, e: VersionEdit)
    requires |levels| == |base|
    ensures Folded(levels, edits + [e]) == ApplyTo(Folded(levels, edits), e)
    ensures FreshEdits(base, levels, edits + [e]) <==>
            FreshEdits(base, levels, edits) && FreshEdit(base, Folded(levels, edits), e)
    decreases |edits|
  {
    if edits == [] {
      assert [] + [e] == [e] && [e][1..] == [];
    } else {
      assert (edits + [e])[1..] == edits[1..] + [e];
      OneMore(base, ApplyTo(levels, edits[0]), edits[1..], e);
    }
  }

  lemma {:induction false} EachMore(base: Version, edits: seq<VersionEdit>, e: VersionEdit)
    ensures ReplayEach(base, edits + [e]) == Install(ReplayEach(base, edits), e)
    decreases |edits|
  {
    if edits == [] {
      assert [] + [e] == [e] && [e][1..] == [];
    } else {
      assert (edits + [e])[1..] == edits[1..] + [e];
      EachMore(Save(base, ApplyTo(Blank(base), edits[0])), edits[1..], e);
    }
  }

  // ----- files only ever move down -----

  /** A number that was ever added to a level is in no file above it. */
  ghost predicate Descends(levels: seq<LevelState>, v: Version, nextFile: nat) {
    && |levels| == NUM_LEVELS
    && (forall l, g :: 0 <= l < NUM_LEVELS && g in levels[l].added ==> g.number < nextFile)
    && (forall l, g, m: nat, f ::
          0 <= l < NUM_LEVELS && g in levels[l].added && In(v, m, f) && f.number == g.number ==> l <= m)
  }

  lemma {:induction false} AddedMember(st: LevelState, edit: VersionEdit, level: nat, n: nat, g: File)
    requires n <= |edit.added| && g in AddFiles(st, edit, level, n).added
    ensures g in st.added || exists i :: 0 <= i < n && edit.added[i] == (level, g)
  {
    if n > 0 {
      var before := AddFiles(st, edit, level, n - 1);
      if g in before.added {
        AddedMember(st, edit, level, n - 1, g);
      } else {
        assert edit.added[n - 1] == (level, g);
      }
    }
  }

  lemma {:induction false} AppliedMember(levels: seq<LevelState>, edit: VersionEdit, l: nat, g: File)
    requires l < |levels| && g in ApplyTo(levels, edit)[l].added
    ensures g in levels[l].added || Added(edit, l, g)
  {
    AddedMember(DeleteFiles(levels[l], edit, l), edit, l, |edit.added|, g);
  }

  /** Files of `w` with a number below `nextFile` were in `v`, at the same level or above. */
  ghost predicate MovesDown(v: Version, w: Version, nextFile: nat) {
    forall m, f :: In(w, m, f) && f.number < nextFile ==> exists k :: k <= m && In(v, k, f)
  }

  /** The files an edit adds: below any place their number was, or new. */
  ghost predicate AddsBelow(w: Version, edit: VersionEdit, nextFile: nat) {
    && (forall i :: 0 <= i < |edit.added| ==> edit.added[i].1.number < nextFile)
    && (forall l, g, m, f :: Added(edit, l, g) && In(w, m, f) && f.number == g.number ==> l <= m)
  }

  lemma {:induction false} StillDescends(levels: seq<LevelState>, v: Version, w: Version, edit: VersionEdit,
                                         before: nat, after: nat)
    requires Descends(levels, v, before) && before <= after && MovesDown(v, w, before) && AddsBelow(w, edit, after)
    ensures Descends(ApplyTo(levels, edit), w, after)
  {
    var next := ApplyTo(levels, edit);
    forall l, g | 0 <= l < NUM_LEVELS && g in next[l].added
      ensures g.number < after
      ensures forall m: nat, f :: In(w, m, f) && f.number == g.number ==> l <= m
    {
      AppliedMember(levels, edit, l, g);
    }
  }

  // ----- each kind of edit -----

  /** What a step must keep for the replay to go on. */
  ghost predicate Replays(levels: seq<LevelState>, db: DB) {
    DbOk(db) && Descends(levels, db.version, db.nextFile)
  }

  lemma {:induction false} FlushReplays(levels: seq<LevelState>, db: DB, level: nat, f: File)
    requires Replays(levels, db) && Enabled(db, Flush(level, f))
    ensures FreshEdit(Fresh().version, levels, FlushEdit(level, f))
    ensures var next := After(db, Flush(level, f));
            Descends(ApplyTo(levels, FlushEdit(level, f)), next.version, next.nextFile)
  {
    var edit, v, w := FlushEdit(level, f), db.version, Install(db.version, FlushEdit(level, f));
    FlushIsOk(db, level, f);
    forall l: nat, g | l < NUM_LEVELS
      ensures In(w, l, g) <==> In(v, l, g) || (l == level && g == f)
    {
      FlushMember(v, db.nextFile, level, f, l);
    }
    assert forall l, g :: Added(edit, l, g) ==> l == level && g == f;
    StillDescends(levels, v, w, edit, db.nextFile, db.nextFile + 1);
  }

  lemma {:induction false} MoveReplays(levels: seq<LevelState>, db: DB, level: nat, f: File)
    requires Replays(levels, db) && Enabled(db, Move(level, f))
    ensures FreshEdit(Fresh().version, levels, MoveEdit(level, f))
    ensures var next := After(db, Move(level, f));
            Descends(ApplyTo(levels, MoveEdit(level, f)), next.version, next.nextFile)
  {
    var edit, v, w := MoveEdit(level, f), db.version, Install(db.version, MoveEdit(level, f));
    assert f in [f] && In(v, level, f);
    forall l: nat, g | l < NUM_LEVELS
      ensures In(w, l, g) <==> if g == f then l == level + 1 else In(v, l, g)
    {
      MoveMember(v, db.nextFile, level, f, l);
    }
    assert forall l, g :: Added(edit, l, g) ==> l == level + 1 && g == f;
    forall m, g | In(w, m, g) && g.number == f.number
      ensures m == level + 1
    {
      assert g != f ==> In(v, m, g) && PairOk(m, g, level, f);
    }
    StillDescends(levels, v, w, edit, db.nextFile, db.nextFile);
  }

  lemma {:induction false} CompactReplays(levels: seq<LevelState>, db: DB, step: Step)
    requires Replays(levels, db) && step.Compact? && Enabled(db, step)
    ensures FreshEdit(Fresh().version, levels, CompactionEdit(step.level, step.in0, step.in1, step.outputs))
    ensures var next := After(db, step);
            Descends(ApplyTo(levels, CompactionEdit(step.level, step.in0, step.in1, step.outputs)), next.version,
                     next.nextFile)
  {
    var edit := CompactionEdit(step.level, step.in0, step.in1, step.outputs);
    var v, w := db.version, Install(db.version, edit);
    OutputsFitInputs(db, step);
    forall l: nat, g | l < NUM_LEVELS
      ensures In(w, l, g) <==>
              Untouched(v, step.level, step.in0, step.in1, l, g) || (l == step.level + 1 && g in step.outputs)
    {
      CompactionMember(v, db.nextFile, step.level, step.in0, step.in1, step.outputs, l);
    }
    forall l, g | Added(edit, l, g)
      ensures l == step.level + 1 && g in step.outputs && g.number >= db.nextFile
    {}
    StillDescends(levels, v, w, edit, db.nextFile, db.nextFile + |step.outputs|);
  }

  // ----- any run -----

  ghost predicate Recovered(base: Version, edits: seq<VersionEdit>, db: DB) {
    && FreshEdits(base, Blank(base), edits)
    && ReplayEach(base, edits) == db.version
    && Replays(Folded(Blank(base), edits), db)
  }

  lemma {:induction false} StepRecovered(edits: seq<VersionEdit>, db: DB, step: Step)
    requires Recovered(Fresh().version, edits, db) && Enabled(db, step)
    ensures Recovered(Fresh().version, edits + EditOf(step), After(db, step))
  {
    var base := Fresh().version;
    var levels := Folded(Blank(base), edits);
    StepOk(db, step);
    if EditOf(step) == [] {
      assert edits + [] == edits;
    } else {
      OneMore(base, Blank(base), edits, EditOf(step)[0]);
      EachMore(base, edits, EditOf(step)[0]);
      match step
      case Flush(level, f) => FlushReplays(levels, db, level, f);
      case Move(level, f) => MoveReplays(levels, db, level, f);
      case Compact(_, _, _, _, _) => CompactReplays(levels, db, step);
    }
  }

  lemma {:induction false} RunRecovered(run: Run)
    requires IsRun(run)
    ensures Recovered(Fresh().version, EditsOf(run), Current(run))
    decreases run
  {
    match run
    case Start => FreshOk();
    case Then(before, step) =>
      RunRecovered(before);
      StepRecovered(EditsOf(before), Current(before), step);
  }

  /**
    Whatever the store did, replaying its manifest into one builder over the empty version gives the
    version it ended with, with every level sorted and disjoint and no file number used twice.
   */
  lemma {:induction false} ManifestOfRun(run: Run)
    requires IsRun(run)
    ensures var base := Fresh().version;
            var v := ReplayOnce(base, Blank(base), EditsOf(run));
            v == Current(run).version && LevelsOk(v, Current(run).nextFile) && VersionOk(v)
  {
    var base := Fresh().version;
    RunRecovered(run);
    ManifestReplay(base, EditsOf(run));
    LevelsVersion(Current(run).version, Current(run).nextFile);
  }

  /** The loop of recovery over the records of a manifest. */
  method Recover(base: Version, edits: seq<VersionEdit>) returns (v: Version)
    requires forall l :: 0 <= l < |base| ==> Strict(base[l])
    ensures v == ReplayOnce(base, Blank(base), edits)
  {
    var builder := new VersionBuilder(base);
    assert edits[0..] == edits && builder.levels == Blank(base);
    for i := 0 to |edits|
      invariant |builder.levels| == |base| && builder.base == base
      invariant Folded(Blank(base), edits) == Folded(builder.levels, edits[i..])
    {
      ghost var before := builder.levels;
      builder.Apply(edits[i]);
      assert builder.levels == ApplyTo(before, edits[i]);
      assert edits[i..][1..] == edits[i + 1..];
    }
    ReplayFolds(base, Blank(base), edits);
    v := builder.SaveTo();
    assert v == Save(base, builder.levels);
  }
}
